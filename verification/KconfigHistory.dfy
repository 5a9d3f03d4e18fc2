/** What holds after every history of assignments. */
module KconfigHistory {
  import opened KconfigModel
  import opened KconfigReference
  import opened KconfigInvalidation
  import opened KconfigChoice
  import opened KconfigCache

  const NOTHING_SET := User(map[], map[], map[])

  lemma AfterKeeps(k: Config, u: User, op: Op)
    requires WellFormed(k) && WellFormedUser(k, u) && InRange(k, op)
    ensures WellFormedUser(k, After(k, u, op))
  {
    hide WellFormed, Accepts, AcceptsMode;
    if op.Set? { SetDiffers(k, u, op.s, op.v); }
  }

  lemma {:induction false} HistoryKeeps(k: Config, ops: seq<Op>)
    requires WellFormed(k) && forall op | op in ops :: InRange(k, op)
    ensures WellFormedUser(k, AfterAll(k, NOTHING_SET, ops))
  {
    hide WellFormed, After;
    if ops != [] {
      var init := ops[..|ops| - 1];
      HistoryKeeps(k, init);
      assert ops[|ops| - 1] in ops;
      AfterKeeps(k, AfterAll(k, NOTHING_SET, init), ops[|ops| - 1]);
    }
  }

  /** After every history of assignments, every well-formed choice respects its mode. */
  lemma ChoiceModesAlways(k: Config, rank: Cell -> nat, ops: seq<Op>, c: nat)
    requires WellFormed(k) && LoopFree(k, rank) && WellFormedChoice(k, c)
    requires forall op | op in ops :: InRange(k, op)
    ensures ModeRespected(At(k, AfterAll(k, NOTHING_SET, ops), rank), c)
  {
    hide WellFormed, LoopFree, WellFormedChoice, ModeRespected, WellFormedUser, Solves;
    HistoryKeeps(k, ops);
    ReferenceSolves(k, AfterAll(k, NOTHING_SET, ops), rank);
    ChoiceModes(At(k, AfterAll(k, NOTHING_SET, ops), rank), c);
  }
}
