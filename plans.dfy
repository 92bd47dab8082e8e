/** The plan builder of the `apply-renames` handler: a `filter` and a `map`. */
module Plans {
  import opened Paths

  /**
   * A row sent by the renderer. The empty string stands for a field that is
   * absent, null or empty: all of these are falsy for the filter.
   */
  datatype Candidate = Candidate(dir: Path, base: string, proposed: string)

  datatype PlanItem = PlanItem(dir: Path, from: Path, to: Path)

  /**
   * The filter: every field present and the name actually changes, so a kept
   * candidate never names the same path twice.
   */
  predicate Keeps(c: Candidate)
    ensures Keeps(c) ==> Join(c.dir, c.base) != Join(c.dir, c.proposed)
  {
    JoinInjective(c.dir, c.base, c.proposed);
    c.dir != [] && c.base != [] && c.proposed != [] && c.base != c.proposed
  }

  /** The map: both paths in the candidate's own directory. */
  function ItemOf(c: Candidate): (p: PlanItem)
    ensures Keeps(c) ==> p.from != p.to
  {
    PlanItem(c.dir, Join(c.dir, c.base), Join(c.dir, c.proposed))
  }

  function BuildPlan(cands: seq<Candidate>): (plan: seq<PlanItem>)
    ensures |plan| <= |cands|
    ensures forall k :: 0 <= k < |plan| ==> plan[k].dir != [] && plan[k].from != plan[k].to
    ensures forall k :: 0 <= k < |plan| ==> plan[k].from != [] && plan[k].to != []
  {
    if cands == [] then []
    else (if Keeps(cands[0]) then [ItemOf(cands[0])] else []) + BuildPlan(cands[1..])
  }

  /** The plan keeps input order: building distributes over concatenation. */
  lemma {:induction false} BuildPlanAppend(a: seq<Candidate>, b: seq<Candidate>)
    ensures BuildPlan(a + b) == BuildPlan(a) + BuildPlan(b)
  {
    if a != [] {
      assert (a + b)[0] == a[0] && (a + b)[1..] == a[1..] + b;
      BuildPlanAppend(a[1..], b);
    } else {
      assert a + b == b;
    }
  }

  /** One candidate contributes its item exactly when the filter keeps it. */
  lemma BuildPlanSingle(c: Candidate)
    ensures BuildPlan([c]) == if Keeps(c) then [ItemOf(c)] else []
  {
    assert [c][1..] == [];
  }

  /** The plan holds exactly the items of the kept candidates. */
  lemma {:induction false} BuildPlanMembers(cands: seq<Candidate>, p: PlanItem)
    ensures p in BuildPlan(cands) <==> exists c :: c in cands && Keeps(c) && p == ItemOf(c)
  {
    if cands != [] {
      BuildPlanMembers(cands[1..], p);
      if p in BuildPlan(cands[1..]) {
        var c :| c in cands[1..] && Keeps(c) && p == ItemOf(c);
        assert c in cands;
      }
      assert forall c :: c in cands <==> c == cands[0] || c in cands[1..];
    }
  }
}
