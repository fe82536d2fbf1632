/**
  The policy plugin as a write-through store: any number of threads that add and
  remove roles, entries and bindings, save and reload, and crashes between any
  two steps (permission/src/permission_impl.c).
 */
module PolicyThreads {
  import opened CText
  import Policy
  import PolicyText
  import PolicyRoundTrip
  import opened WriteThrough

  ghost function PolicyCodec(): Codec<Policy.State, Policy.Op> {
    Codec(Policy.EMPTY, Policy.Apply, PolicyText.SaveText, PolicyText.Load, Policy.WellFormed)
  }

  ghost function Run(threads: nat, events: seq<Event<Policy.Op>>): World<Policy.State> {
    Execute(PolicyCodec(), Fresh(PolicyCodec(), threads), events)
  }

  ghost function Restarted(w: World<Policy.State>): Policy.State {
    Next(PolicyCodec(), w, Crash).memory
  }

  lemma EmptyReloads()
    ensures PolicyText.Load(PolicyText.SaveText(Policy.EMPTY)) == Policy.EMPTY
  {
    PolicyRoundTrip.RoundTripIff(Policy.EMPTY);
  }

  lemma PolicySound()
    ensures Sound(PolicyCodec())
  {
    var c := PolicyCodec();
    EmptyReloads();
    forall s: Policy.State, op: Policy.Op | Policy.WellFormed(s)
      ensures Policy.WellFormed(Policy.Apply(s, op).0)
    {
      Policy.ApplyWellFormed(s, op);
    }
    forall s: Policy.State | Policy.WellFormed(s)
      ensures Policy.WellFormed(Norm(c, s)) && Norm(c, Norm(c, s)) == Norm(c, s)
    {
      PolicyRoundTrip.SecondRestartIdentical(s);
    }
  }

  /**
    Whatever the interleaving, the state file is absent or the complete text of
    one policy that memory once held, and it is no older than any change whose
    operation has come back from a successful save: a crash at any step, also
    between writing the temporary file and the rename, brings back a complete
    policy with every acknowledged change in its past.
   */
  lemma CrashFindsHeldPolicy(threads: nat, events: seq<Event<Policy.Op>>)
    ensures var w := Run(threads, events);
      && w.acked <= w.saved < |w.held|
      && (w.file == None || w.file == Some(PolicyText.SaveText(w.held[w.saved])))
      && Restarted(w) == PolicyText.Load(PolicyText.SaveText(w.held[w.saved]))
  {
    PolicySound();
    CrashFindsHeld(PolicyCodec(), threads, events);
  }

  /**
    When every thread has returned and no save has failed since memory and file
    last agreed, a restart puts back the current policy: exactly, if and only if
    none of its free texts has blanks at its edges.
   */
  lemma QuietFileIsCurrent(threads: nat, events: seq<Event<Policy.Op>>)
    ensures var w := Run(threads, events);
      AllIdle(w.threads) && !w.failed ==>
        && Restarted(w) == PolicyText.Load(PolicyText.SaveText(w.memory))
        && (PolicyRoundTrip.Tidy(w.memory) <==> Restarted(w) == w.memory)
  {
    PolicySound();
    QuietIsCurrent(PolicyCodec(), threads, events);
    var w := Run(threads, events);
    if AllIdle(w.threads) && !w.failed {
      PolicyRoundTrip.RoundTripIff(w.memory);
    }
  }

  /** Under every interleaving, with reloads and crashes: no dangling or duplicate binding, no duplicate role or entry, ever. */
  lemma MemoryAlwaysWellFormed(threads: nat, events: seq<Event<Policy.Op>>)
    ensures var w := Run(threads, events);
      Policy.WellFormed(w.memory) && forall v | 0 <= v < |w.held| :: Policy.WellFormed(w.held[v])
  {
    PolicySound();
    FreshInv(PolicyCodec(), threads);
    ExecuteInv(PolicyCodec(), Fresh(PolicyCodec(), threads), events);
    var w := Run(threads, events);
    assert HeldOk(PolicyCodec(), w);
    assert PolicyCodec().ok(w.held[|w.held| - 1]);
    assert forall v | 0 <= v < |w.held| :: PolicyCodec().ok(w.held[v]);
  }

  /** No interleaving makes the file go back to an older policy, nor memory forget what it held. */
  lemma FileMovesForward(threads: nat, first: seq<Event<Policy.Op>>, later: seq<Event<Policy.Op>>)
    ensures var w := Run(threads, first); var r := Execute(PolicyCodec(), w, later);
      w.saved <= r.saved && w.acked <= r.acked && w.held <= r.held
  {
    PolicySound();
    FreshInv(PolicyCodec(), threads);
    ExecuteInv(PolicyCodec(), Fresh(PolicyCodec(), threads), first);
    FileNeverGoesBack(PolicyCodec(), Run(threads, first), later);
  }
}
