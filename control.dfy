/**
 The voice-command control: first-match dispatch over the shared registry
 (`MatchAndPerformMixin.perform_action`), the in-memory command history
 (`VoiceCommandMixin.add_to_history`) and the replay of a saved history
 (`VoiceCommandMixin.load_and_replay_history`).

 A handler is an abstract value of type `H`; calling it with keyword
 arguments is the function `invoke`, which either returns the handler's text
 or raises the named exception.
 */
module VoiceControl {
  import opened Wrappers
  import opened Matching
  import opened ActionRegistry

  /** Keyword arguments a handler is called with. */
  type Args = map<string, string>

  /** What calling a handler does: it returns a string or raises an exception. */
  datatype Outcome = Returned(text: string) | Raised(exception: string)

  /** The answer when no registration matches. */
  const NotRecognized := "Command not recognized"

  /** A wall-clock instant; the model never inspects it. */
  datatype Instant = Instant(micros: int)

  /** `CommandHistory(action, timestamp, args)`. */
  datatype CommandRecord = CommandRecord(action: string, timestamp: Instant, args: Args)

  // ---------------------------------------------------------------------------
  // Dispatch
  // ---------------------------------------------------------------------------

  predicate Fires<H>(e: Entry<H>, command: string)
  {
    IsMatch(command, e.pattern, e.kind)
  }

  /** The position of the earliest registration whose pattern matches, if any. */
  function FirstMatch<H>(entries: seq<Entry<H>>, command: string): (r: Option<nat>)
    ensures r.Some? ==> r.value < |entries| && Fires(entries[r.value], command)
    ensures r.Some? ==> forall j :: 0 <= j < r.value ==> !Fires(entries[j], command)
    ensures r.None? <==> forall j :: 0 <= j < |entries| ==> !Fires(entries[j], command)
  {
    if entries == [] then None
    else if Fires(entries[0], command) then Some(0)
    else match FirstMatch(entries[1..], command)
      case None => None
      case Some(i) => Some(i + 1)
  }

  /** The earliest matching registration is the one `FirstMatch` finds. */
  lemma FirstMatchIs<H>(entries: seq<Entry<H>>, command: string, i: nat)
    requires i < |entries| && Fires(entries[i], command)
    requires forall j :: 0 <= j < i ==> !Fires(entries[j], command)
    ensures FirstMatch(entries, command) == Some(i)
  {
  }

  /** What `perform_action(command)` answers for the given registry contents. */
  function Dispatch<H>(entries: seq<Entry<H>>, command: string, invoke: (H, Args) -> Outcome): (r: Outcome)
    ensures r == Returned(NotRecognized)
         || exists i :: 0 <= i < |entries| && Fires(entries[i], command) && r == invoke(entries[i].handler, map[])
  {
    match FirstMatch(entries, command)
    case Some(i) => invoke(entries[i].handler, map[])
    case None => Returned(NotRecognized)
  }

  /** Of two matching registrations, the one registered first wins. */
  lemma EarlierRegistrationWins<H>(entries: seq<Entry<H>>, command: string, i: nat, j: nat)
    requires i < j < |entries|
    requires Fires(entries[i], command) && Fires(entries[j], command)
    ensures FirstMatch(entries, command).Some? && FirstMatch(entries, command).value <= i
  {
  }

  /** Entries appended later never change the answer for a command an earlier entry matches. */
  lemma {:induction false} DispatchPrefixStable<H>(entries: seq<Entry<H>>, more: seq<Entry<H>>, command: string, invoke: (H, Args) -> Outcome)
    requires FirstMatch(entries, command).Some?
    ensures Dispatch(entries + more, command, invoke) == Dispatch(entries, command, invoke)
  {
    var i := FirstMatch(entries, command).value;
    var all := entries + more;
    assert forall j :: 0 <= j <= i ==> all[j] == entries[j];
    FirstMatchIs(all, command, i);
  }

  /** Registering a new pattern never changes the answer for a command an existing entry matches. */
  lemma RegisterNewKeepsAnswer<H>(entries: seq<Entry<H>>, e: Entry<H>, command: string, invoke: (H, Args) -> Outcome)
    requires e.pattern !in Keys(entries) && FirstMatch(entries, command).Some?
    ensures Dispatch(Insert(entries, e), command, invoke) == Dispatch(entries, command, invoke)
  {
    InsertNew(entries, e);
    DispatchPrefixStable(entries, [e], command, invoke);
  }

  /**
   Re-registering the pattern that decides a command, under the same match
   type, replaces it in place: the command now goes to the new handler.
   */
  lemma ReregisterTakesOver<H>(entries: seq<Entry<H>>, e: Entry<H>, command: string, invoke: (H, Args) -> Outcome)
    requires UniqueKeys(entries) && FirstMatch(entries, command).Some?
    requires e.pattern == entries[FirstMatch(entries, command).value].pattern
    requires e.kind == entries[FirstMatch(entries, command).value].kind
    ensures Dispatch(Insert(entries, e), command, invoke) == invoke(e.handler, map[])
  {
    var i := FirstMatch(entries, command).value;
    InsertExisting(entries, e, i);
    var updated := entries[i := e];
    assert forall j :: 0 <= j < i ==> updated[j] == entries[j];
    FirstMatchIs(updated, command, i);
  }

  /** A command no registration matches is answered with exactly the sentinel. */
  lemma NoMatchNotRecognized<H>(entries: seq<Entry<H>>, command: string, invoke: (H, Args) -> Outcome)
    requires forall j :: 0 <= j < |entries| ==> !Fires(entries[j], command)
    ensures Dispatch(entries, command, invoke) == Returned(NotRecognized)
  {
  }

  // ---------------------------------------------------------------------------
  // Replay
  // ---------------------------------------------------------------------------

  /** A handler invocation that replay performed: the handler and its keyword arguments. */
  datatype Call<H> = Call(handler: H, args: Args)

  /** How a replay ended: it ran every record, or stopped at record `at`. */
  datatype ReplayEnd =
    | Completed
    | UnknownAction(at: nat, action: string)    // the `KeyError` of the registry lookup
    | HandlerRaised(at: nat, exception: string) // the handler itself raised

  datatype ReplayRun<H> = ReplayRun(calls: seq<Call<H>>, end: ReplayEnd)

  /** Replay finds `rec.action` among the registry keys (no `KeyError`). */
  predicate Resolves<H>(entries: seq<Entry<H>>, rec: CommandRecord)
  {
    Lookup(entries, rec.action).Some?
  }

  /** The call replay makes for a record: its registered handler with the saved arguments. */
  function CallFor<H>(entries: seq<Entry<H>>, rec: CommandRecord): Call<H>
    requires Resolves(entries, rec)
  {
    Call(Lookup(entries, rec.action).value.handler, rec.args)
  }

  /** Replay gets past `rec`: its action resolves and the handler returns. */
  predicate Passes<H>(entries: seq<Entry<H>>, rec: CommandRecord, invoke: (H, Args) -> Outcome)
  {
    Resolves(entries, rec) && invoke(CallFor(entries, rec).handler, rec.args).Returned?
  }

  /** The index of the first record at or after `from` that replay does not get past, or `|records|`. */
  function FirstFailure<H>(entries: seq<Entry<H>>, records: seq<CommandRecord>, invoke: (H, Args) -> Outcome, from: nat): (r: nat)
    requires from <= |records|
    ensures from <= r <= |records|
    ensures forall k :: from <= k < r ==> Passes(entries, records[k], invoke)
    ensures r < |records| ==> !Passes(entries, records[r], invoke)
    decreases |records| - from
  {
    if from == |records| || !Passes(entries, records[from], invoke) then from
    else FirstFailure(entries, records, invoke, from + 1)
  }

  /** Where replay from the first record stops, told by which records pass. */
  lemma FirstFailureIs<H>(entries: seq<Entry<H>>, records: seq<CommandRecord>, invoke: (H, Args) -> Outcome, i: nat)
    requires i <= |records|
    requires forall k :: 0 <= k < i ==> Passes(entries, records[k], invoke)
    requires i < |records| ==> !Passes(entries, records[i], invoke)
    ensures FirstFailure(entries, records, invoke, 0) == i
  {
  }

  /** The calls made for the first `n` records, which replay all got past. */
  function CallsFor<H>(entries: seq<Entry<H>>, records: seq<CommandRecord>, n: nat): (calls: seq<Call<H>>)
    requires n <= |records|
    requires forall k :: 0 <= k < n ==> Resolves(entries, records[k])
  {
    seq(n, k requires 0 <= k < n => CallFor(entries, records[k]))
  }

  /** One more record replayed adds its call at the end. */
  lemma CallsForNext<H>(entries: seq<Entry<H>>, records: seq<CommandRecord>, n: nat)
    requires n < |records|
    requires forall k :: 0 <= k <= n ==> Resolves(entries, records[k])
    ensures CallsFor(entries, records, n + 1) == CallsFor(entries, records, n) + [CallFor(entries, records[n])]
  {
  }

  /**
   The effect of replaying `records` in order: one call per record up to the
   first record that fails. An unknown action stops the run before any call
   for it; a raising handler stops it after its own call.
   */
  function Replay<H>(entries: seq<Entry<H>>, records: seq<CommandRecord>, invoke: (H, Args) -> Outcome): (r: ReplayRun<H>)
    ensures |r.calls| <= |records|
    ensures r.end.Completed? <==> forall k :: 0 <= k < |records| ==> Passes(entries, records[k], invoke)
    ensures r.end.UnknownAction? ==> r.end.at < |records| && !Resolves(entries, records[r.end.at])
    ensures r.end.HandlerRaised? ==> r.end.at < |records| && |r.calls| == r.end.at + 1
  {
    var stop := FirstFailure(entries, records, invoke, 0);
    var done := CallsFor(entries, records, stop);
    if stop == |records| then ReplayRun(done, Completed)
    else
      var rec := records[stop];
      if !Resolves(entries, rec) then ReplayRun(done, UnknownAction(stop, rec.action))
      else
        var call := CallFor(entries, rec);
        ReplayRun(done + [call], HandlerRaised(stop, invoke(call.handler, call.args).exception))
  }

  /**
   A saved history whose actions are all still registered, and whose handlers
   all return, is replayed in full: one call per record, in record order, with
   that record's arguments.
   */
  lemma ReplayAllRegistered<H>(entries: seq<Entry<H>>, records: seq<CommandRecord>, invoke: (H, Args) -> Outcome)
    requires forall k :: 0 <= k < |records| ==> Passes(entries, records[k], invoke)
    ensures Replay(entries, records, invoke).end == Completed
    ensures |Replay(entries, records, invoke).calls| == |records|
    ensures forall k :: 0 <= k < |records| ==>
              Replay(entries, records, invoke).calls[k] == Call(Lookup(entries, records[k].action).value.handler, records[k].args)
    ensures Replay(entries, records, invoke) == ReplayRun(CallsFor(entries, records, |records|), Completed)
  {
    FirstFailureIs(entries, records, invoke, |records|);
  }

  /**
   A record whose action is not a registry key aborts the replay at that
   record with a `KeyError`; every record before it has already been replayed,
   exactly as a replay of those records alone would have done.
   */
  lemma ReplayAbortsAtUnknown<H>(entries: seq<Entry<H>>, records: seq<CommandRecord>, invoke: (H, Args) -> Outcome, i: nat)
    requires i < |records| && records[i].action !in Keys(entries)
    requires forall k :: 0 <= k < i ==> Passes(entries, records[k], invoke)
    ensures Replay(entries, records, invoke).end == UnknownAction(i, records[i].action)
    ensures Replay(entries, records, invoke).calls == Replay(entries, records[..i], invoke).calls
    ensures |Replay(entries, records, invoke).calls| == i
    ensures Replay(entries, records, invoke) == ReplayRun(CallsFor(entries, records, i), UnknownAction(i, records[i].action))
  {
    var prefix := records[..i];
    assert forall k :: 0 <= k < i ==> prefix[k] == records[k];
    FirstFailureIs(entries, records, invoke, i);
    FirstFailureIs(entries, prefix, invoke, i);
  }

  /** A handler that raises stops the replay right after its own call. */
  lemma ReplayStopsAtRaise<H>(entries: seq<Entry<H>>, records: seq<CommandRecord>, invoke: (H, Args) -> Outcome, i: nat)
    requires i < |records| && Resolves(entries, records[i])
    requires invoke(CallFor(entries, records[i]).handler, records[i].args).Raised?
    requires forall k :: 0 <= k < i ==> Passes(entries, records[k], invoke)
    ensures Replay(entries, records, invoke).end
         == HandlerRaised(i, invoke(CallFor(entries, records[i]).handler, records[i].args).exception)
    ensures |Replay(entries, records, invoke).calls| == i + 1
    ensures Replay(entries, records, invoke).calls[i] == CallFor(entries, records[i])
    ensures Replay(entries, records, invoke)
         == ReplayRun(CallsFor(entries, records, i) + [CallFor(entries, records[i])],
                      HandlerRaised(i, invoke(CallFor(entries, records[i]).handler, records[i].args).exception))
  {
    FirstFailureIs(entries, records, invoke, i);
  }

  /** Extending a saved history by records that replay cleanly extends the calls replay makes. */
  lemma ReplayExtends<H>(entries: seq<Entry<H>>, records: seq<CommandRecord>, more: seq<CommandRecord>, invoke: (H, Args) -> Outcome)
    requires forall k :: 0 <= k < |records| ==> Passes(entries, records[k], invoke)
    ensures Replay(entries, records + more, invoke).calls[..|records|] == Replay(entries, records, invoke).calls
  {
    var all := records + more;
    assert forall k :: 0 <= k < |records| ==> all[k] == records[k];
    ReplayAllRegistered(entries, records, invoke);
    assert FirstFailure(entries, all, invoke, 0) >= |records|;
  }

  // ---------------------------------------------------------------------------
  // The control object
  // ---------------------------------------------------------------------------

  /**
   A control instance (`TestControl`, `PaintAppControl`): a reference to the
   shared registry and its own history list.
   */
  class Control<H> {
    const registry: Registry<H>
    var history: seq<CommandRecord>

    /** `VoiceCommandMixin.__init__`: alias the global registry, start an empty history. */
    constructor (registry: Registry<H>)
      ensures this.registry == registry && history == []
    {
      this.registry := registry;
      history := [];
    }

    /** `perform_action(command)`: the first matching registration in insertion order answers. */
    method PerformAction(command: string, invoke: (H, Args) -> Outcome) returns (r: Outcome)
      ensures r == Dispatch(registry.entries, command, invoke)
    {
      var entries := registry.entries;
      var i := 0;
      while i < |entries|
        invariant 0 <= i <= |entries|
        invariant forall j :: 0 <= j < i ==> !Fires(entries[j], command)
      {
        var e := entries[i];
        if IsMatch(command, e.pattern, e.kind) {
          return invoke(e.handler, map[]);
        }
        i := i + 1;
      }
      return Returned(NotRecognized);
    }

    /** `add_to_history(action, args)` with the instant `datetime.now()` gave. */
    method AddToHistory(action: string, timestamp: Instant, args: Args)
      modifies this
      ensures history == old(history) + [CommandRecord(action, timestamp, args)]
      ensures |history| == |old(history)| + 1
      ensures history[|history| - 1].action == action && history[|history| - 1].args == args
      ensures forall k :: 0 <= k < |old(history)| ==> history[k] == old(history)[k]
    {
      history := history + [CommandRecord(action, timestamp, args)];
    }

    /** The replay loop of `load_and_replay_history`, over the records the file held. */
    method ReplayRecords(records: seq<CommandRecord>, invoke: (H, Args) -> Outcome) returns (run: ReplayRun<H>)
      ensures run == Replay(registry.entries, records, invoke)
    {
      var entries := registry.entries;
      var calls: seq<Call<H>> := [];
      var i := 0;
      while i < |records|
        invariant 0 <= i <= |records|
        invariant forall k :: 0 <= k < i ==> Passes(entries, records[k], invoke)
        invariant calls == CallsFor(entries, records, i)
      {
        var rec := records[i];
        var found := Lookup(entries, rec.action);
        if found.None? {
          ReplayAbortsAtUnknown(entries, records, invoke, i);
          return ReplayRun(calls, UnknownAction(i, rec.action));
        }
        var call := Call(found.value.handler, rec.args);
        var outcome := invoke(call.handler, call.args);
        if outcome.Raised? {
          ReplayStopsAtRaise(entries, records, invoke, i);
          return ReplayRun(calls + [call], HandlerRaised(i, outcome.exception));
        }
        CallsForNext(entries, records, i);
        calls := calls + [call];
        i := i + 1;
      }
      ReplayAllRegistered(entries, records, invoke);
      return ReplayRun(calls, Completed);
    }
  }
}
