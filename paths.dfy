/**
 * Path utilities of the main process: joining a directory and a name,
 * splitting a path into its segments the way `String.prototype.split` does,
 * and `commonDir`, the longest leading run of segments shared by a set of
 * directories (where the backup file of a batch is placed).
 */
module Paths {
  import opened Wrappers

  /** A path as the program passes it to the file system. */
  type Path = string

  /** The platform separator (`path.sep`), taken to be the POSIX one. */
  const Sep: char := '/'

  /**
   * `path.join(dir, name)` for one name, without `.`/`..` normalisation: a
   * name without a separator becomes the last segment of the joined path.
   */
  function Join(dir: Path, name: string): (p: Path)
    ensures Sep !in name ==> Split(p) == Split(dir) + [name]
  {
    SplitConcat(dir, name);
    SplitPlainSegment(name);
    dir + [Sep] + name
  }

  /** For one directory, joining is injective in the name. */
  lemma JoinInjective(dir: Path, a: string, b: string)
    ensures Join(dir, a) == Join(dir, b) <==> a == b
  {
    assert a == Join(dir, a)[|dir| + 1..];
    assert b == Join(dir, b)[|dir| + 1..];
  }

  /** `s.split(Sep)`: at least one segment, and no segment holds the separator. */
  function Split(s: string): (segs: seq<string>)
    ensures |segs| >= 1
    ensures forall k :: 0 <= k < |segs| ==> Sep !in segs[k]
  {
    if s == [] then [[]]
    else
      var rest := Split(s[1..]);
      if s[0] == Sep then [[]] + rest
      else [[s[0]] + rest[0]] + rest[1..]
  }

  /**
   * `segs.join(Sep)`: the path starts with the first segment, and it is empty
   * only for no segments or a single empty one.
   */
  function JoinSegments(segs: seq<string>): (p: Path)
    ensures p == [] <==> segs == [] || segs == [[]]
    ensures segs != [] ==> segs[0] <= p
  {
    if segs == [] then []
    else if |segs| == 1 then segs[0]
    else segs[0] + [Sep] + JoinSegments(segs[1..])
  }

  /** Joining the segments of a path gives the path back. */
  lemma {:induction false} JoinSplit(s: string)
    ensures JoinSegments(Split(s)) == s
  {
    if s != [] {
      var rest := Split(s[1..]);
      JoinSplit(s[1..]);
      if s[0] == Sep {
        assert Split(s) == [[]] + rest;
        assert ([[]] + rest)[1..] == rest;
        assert JoinSegments(Split(s)) == [] + [Sep] + JoinSegments(rest);
      } else {
        var segs := [[s[0]] + rest[0]] + rest[1..];
        assert Split(s) == segs;
        if |rest| == 1 {
          assert JoinSegments(segs) == [s[0]] + rest[0];
        } else {
          assert segs[1..] == rest[1..];
          assert JoinSegments(rest) == rest[0] + [Sep] + JoinSegments(rest[1..]);
          assert JoinSegments(segs) == ([s[0]] + rest[0]) + [Sep] + JoinSegments(rest[1..]);
        }
      }
      assert s == [s[0]] + s[1..];
    }
  }

  /** The position of the first separator in a string that holds one. */
  function FirstSep(a: string): (i: nat)
    requires Sep in a
    ensures i < |a| && a[i] == Sep && Sep !in a[..i]
  {
    if a[0] == Sep then 0
    else
      var j := FirstSep(a[1..]);
      assert a[..j + 1] == [a[0]] + a[1..][..j];
      j + 1
  }

  /** Splitting at a separator splits both sides independently. */
  lemma {:induction false} SplitConcat(a: string, b: string)
    ensures Split(a + [Sep] + b) == Split(a) + Split(b)
    decreases |a|
  {
    if Sep !in a {
      SplitSegment(a);
      SplitAfterSegment(a, b);
    } else {
      var i := FirstSep(a);
      var seg, rest := a[..i], a[i + 1..];
      var tail := rest + [Sep] + b;
      assert a == seg + [Sep] + rest;
      assert a + [Sep] + b == seg + [Sep] + tail;
      SplitAfterSegment(seg, rest);
      SplitAfterSegment(seg, tail);
      SplitConcat(rest, b);
      assert [seg] + (Split(rest) + Split(b)) == ([seg] + Split(rest)) + Split(b);
    }
  }

  /** A name without a separator is a single segment. */
  lemma SplitPlainSegment(name: string)
    ensures Sep !in name ==> Split(name) == [name]
  {
    if Sep !in name {
      SplitSegment(name);
    }
  }

  lemma {:induction false} SplitSegment(seg: string)
    requires Sep !in seg
    ensures Split(seg) == [seg]
  {
    if seg != [] {
      SplitSegment(seg[1..]);
      assert seg == [seg[0]] + seg[1..];
    }
  }

  lemma {:induction false} SplitAfterSegment(seg: string, tail: string)
    requires Sep !in seg
    ensures Split(seg + [Sep] + tail) == [seg] + Split(tail)
  {
    var s := seg + [Sep] + tail;
    if seg == [] {
      assert s[0] == Sep && s[1..] == tail;
    } else {
      SplitAfterSegment(seg[1..], tail);
      assert s[0] == seg[0] && s[1..] == seg[1..] + [Sep] + tail;
      assert seg == [seg[0]] + seg[1..];
    }
  }

  /** Splitting the join of separator-free segments gives the segments back. */
  lemma {:induction false} SplitJoin(segs: seq<string>)
    requires |segs| >= 1
    requires forall k :: 0 <= k < |segs| ==> Sep !in segs[k]
    ensures Split(JoinSegments(segs)) == segs
  {
    if |segs| == 1 {
      SplitSegment(segs[0]);
    } else {
      SplitJoin(segs[1..]);
      SplitAfterSegment(segs[0], JoinSegments(segs[1..]));
      assert segs == [segs[0]] + segs[1..];
    }
  }

  /** `dirs.map(d => path.resolve(d).split(path.sep))`, with resolution the identity. */
  function SegmentLists(dirs: seq<Path>): (parts: seq<seq<string>>)
    ensures |parts| == |dirs|
    ensures forall j :: 0 <= j < |dirs| ==> parts[j] == Split(dirs[j])
  {
    seq(|dirs|, j requires 0 <= j < |dirs| => Split(dirs[j]))
  }

  /** `Math.min(...parts.map(p => p.length))`. */
  function MinLength(parts: seq<seq<string>>): (m: nat)
    requires |parts| > 0
    ensures forall j :: 0 <= j < |parts| ==> m <= |parts[j]|
    ensures exists j :: 0 <= j < |parts| && m == |parts[j]|
  {
    if |parts| == 1 then |parts[0]|
    else
      var m := MinLength(parts[1..]);
      assert forall j :: 1 <= j < |parts| ==> parts[1..][j - 1] == parts[j];
      if |parts[0]| <= m then |parts[0]| else m
  }

  /** Every list in `parts` starts with `prefix`. */
  ghost predicate SharedPrefix(prefix: seq<string>, parts: seq<seq<string>>)
  {
    forall j :: 0 <= j < |parts| ==> prefix <= parts[j]
  }

  /** No segment is shared: the only prefix common to every list is empty. */
  ghost predicate NothingShared(parts: seq<seq<string>>)
  {
    forall q :: SharedPrefix(q, parts) ==> q == []
  }

  /** Every list has an `i`-th segment, and all of them equal the first list's. */
  predicate AgreeAt(parts: seq<seq<string>>, i: nat)
    requires |parts| > 0
  {
    i < |parts[0]| && forall j :: 0 <= j < |parts| ==> i < |parts[j]| && parts[j][i] == parts[0][i]
  }

  /** The first index at or after `k` where the lists stop agreeing. */
  function CommonLength(parts: seq<seq<string>>, k: nat): (n: nat)
    requires |parts| > 0 && k <= |parts[0]|
    ensures k <= n <= |parts[0]|
    ensures forall i :: k <= i < n ==> AgreeAt(parts, i)
    ensures !AgreeAt(parts, n)
    decreases |parts[0]| - k
  {
    if AgreeAt(parts, k) then CommonLength(parts, k + 1) else k
  }

  /** The longest run of leading segments shared by all lists. */
  function CommonSegments(parts: seq<seq<string>>): seq<string>
    requires |parts| > 0
  {
    parts[0][..CommonLength(parts, 0)]
  }

  /** The shared run is shared, and every shared prefix is a prefix of it. */
  lemma CommonSegmentsLongest(parts: seq<seq<string>>)
    requires |parts| > 0
    ensures SharedPrefix(CommonSegments(parts), parts)
    ensures forall q :: SharedPrefix(q, parts) ==> q <= CommonSegments(parts)
  {
    var n := CommonLength(parts, 0);
    var out := CommonSegments(parts);
    forall j | 0 <= j < |parts|
      ensures out <= parts[j]
    {
      if n > 0 {
        assert AgreeAt(parts, n - 1);
      }
      forall i | 0 <= i < n
        ensures out[i] == parts[j][i]
      {
        assert AgreeAt(parts, i);
      }
    }
    forall q | SharedPrefix(q, parts)
      ensures q <= out
    {
      if |q| > n {
        assert q <= parts[0];
        forall j | 0 <= j < |parts|
          ensures n < |parts[j]| && parts[j][n] == parts[0][n]
        {
          assert q <= parts[j];
        }
        assert AgreeAt(parts, n);
      }
      assert q <= parts[0];
    }
  }

  /**
   * `commonDir(dirs)`: `None` for no directories; otherwise the shared
   * leading segments joined again, or the first directory when none is shared.
   */
  function CommonDirOf(dirs: seq<Path>): (r: Option<Path>)
    ensures r.None? <==> dirs == []
    ensures dirs != [] && CommonSegments(SegmentLists(dirs)) == [] ==> r == Some(dirs[0])
    ensures dirs != [] && CommonSegments(SegmentLists(dirs)) != [] ==>
      Split(r.value) == CommonSegments(SegmentLists(dirs))
  {
    if dirs == [] then None
    else
      var out := CommonSegments(SegmentLists(dirs));
      CommonSegmentsRejoin(dirs);
      if out != [] then Some(JoinSegments(out)) else Some(dirs[0])
  }

  /** The shared segments, joined again, split back into themselves. */
  lemma CommonSegmentsRejoin(dirs: seq<Path>)
    requires dirs != []
    ensures var out := CommonSegments(SegmentLists(dirs));
      out != [] ==> Split(JoinSegments(out)) == out
  {
    var parts := SegmentLists(dirs);
    var out := CommonSegments(parts);
    if out != [] {
      forall k | 0 <= k < |out|
        ensures Sep !in out[k]
      {
        assert out[k] == parts[0][k] == Split(dirs[0])[k];
      }
      SplitJoin(out);
    }
  }

  /**
   * What `commonDir` promises: for directories, a result whose segments are
   * the longest prefix shared by every directory's segments, or the first
   * directory when they share no segment at all.
   */
  lemma CommonDirIsLongestSharedPrefix(dirs: seq<Path>)
    ensures CommonDirOf(dirs).None? <==> dirs == []
    ensures dirs != [] && NothingShared(SegmentLists(dirs)) ==>
      CommonDirOf(dirs) == Some(dirs[0])
    ensures dirs != [] && !NothingShared(SegmentLists(dirs)) ==>
      var segs := Split(CommonDirOf(dirs).value);
      SharedPrefix(segs, SegmentLists(dirs)) &&
      forall q :: SharedPrefix(q, SegmentLists(dirs)) ==> q <= segs
  {
    if dirs != [] {
      var parts := SegmentLists(dirs);
      var out := CommonSegments(parts);
      CommonSegmentsLongest(parts);
      if out == [] {
        assert NothingShared(parts);
      } else {
        assert !NothingShared(parts);
      }
    }
  }

  /** The loop of `commonDir`, pushing agreeing segments until the first disagreement. */
  method CommonDir(dirs: seq<Path>) returns (r: Option<Path>)
    ensures r == CommonDirOf(dirs)
  {
    if |dirs| == 0 {
      return None;
    }
    var parts := SegmentLists(dirs);
    var minLen := MinLength(parts);
    var out: seq<string> := [];
    var i := 0;
    while i < minLen
      invariant 0 <= i <= minLen
      invariant out == parts[0][..i]
      invariant forall k :: 0 <= k < i ==> AgreeAt(parts, k)
    {
      var seg := parts[0][i];
      if forall j :: 0 <= j < |parts| ==> parts[j][i] == seg {
        out := out + [seg];
        i := i + 1;
      } else {
        break;
      }
    }
    assert !AgreeAt(parts, i);
    var n := CommonLength(parts, 0);
    assert n == i;
    if |out| > 0 {
      r := Some(JoinSegments(out));
    } else {
      r := Some(dirs[0]);
    }
  }
}
