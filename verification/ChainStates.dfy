/** Where a run's log stands with respect to the one writer that appends to it, when appends can fail. */
module ChainStates {

  /** How an append ends: refused before the writer's chain state moves, complete, failed with nothing in
      the file, or failed with the line in the file but not synced. */
  datatype Fate = Refused | Completes | NothingWritten | NotSynced

  /** Held: the chain verifies and the writer works from its head. Ahead: it verifies, but the writer is
      an event past it. Broken: it does not verify and the writer does not notice. Stuck: it does not
      verify and the writer will notice, since the file is not as it left it. */
  datatype ChainState = Held | Ahead | Broken | Stuck

  predicate Verifies(s: ChainState) {
    s.Held? || s.Ahead?
  }

  /** Whether the line reaches the file. */
  predicate Writes(s: ChainState, fate: Fate) {
    !s.Stuck? && (fate.Completes? || fate.NotSynced?)
  }

  /** Whether the caller gets its event. */
  predicate Returns(s: ChainState, fate: Fate) {
    !s.Stuck? && fate.Completes?
  }

  function After(s: ChainState, fate: Fate): ChainState {
    match s
    case Held => if fate.NothingWritten? then Ahead else Held
    case Ahead => if fate.Completes? then Broken else if fate.NotSynced? then Stuck else Ahead
    case Broken => if fate.NotSynced? then Stuck else Broken
    case Stuck => Stuck
  }

  /** The state of a new log after the appends tried so far. */
  function StateAfter(tried: seq<Fate>): ChainState {
    if tried == [] then Held else After(StateAfter(tried[..|tried| - 1]), tried[|tried| - 1])
  }

  lemma StateStep(tried: seq<Fate>, fate: Fate)
    ensures StateAfter(tried + [fate]) == After(StateAfter(tried), fate)
  {
    assert (tried + [fate])[..|tried|] == tried;
  }

  /** No line reached the file after an append that left nothing. */
  predicate Unbroken(tried: seq<Fate>) {
    forall i, j :: 0 <= i < j < |tried| && tried[i].NothingWritten? ==> tried[j].Refused? || tried[j].NothingWritten?
  }

  /** The chain verifies exactly when no append that wrote followed one that left nothing. */
  lemma {:induction false} VerifiesExactlyUnbroken(tried: seq<Fate>)
    ensures Verifies(StateAfter(tried)) <==> Unbroken(tried)
    ensures StateAfter(tried).Held? <==> forall i :: 0 <= i < |tried| ==> !tried[i].NothingWritten?
  {
    if tried != [] {
      var n := |tried| - 1;
      var front := tried[..n];
      VerifiesExactlyUnbroken(front);
      assert forall i :: 0 <= i < n ==> front[i] == tried[i];
      if Unbroken(tried) {
        assert Unbroken(front);
      }
      if !StateAfter(front).Held? {
        var i :| 0 <= i < n && front[i].NothingWritten?;
        assert tried[i].NothingWritten?;
      }
    }
  }
}
