/** The platform callbacks: one structure, replaced whole, behind aggregates that stay installed. */
module PlatformCallbacks {
  import opened Statuses
  import opened Wrappers
  import opened CallbackChains

  datatype PlatformSlot =
    | GetCurrentTime | GetRandomNumber
    | CreateMutex | LockMutex | UnlockMutex | TryLockMutex | FreeMutex
    | CreateConditionVariable | SignalConditionVariable | BroadcastConditionVariable
    | WaitConditionVariable | FreeConditionVariable

  datatype Callbacks = Callbacks(version: nat, customData: nat, freeFn: Option<nat>,
                                 fns: map<PlatformSlot, nat>, logPrint: Option<nat>)

  /** `current` is the structure last copied in; `aggregated` are the client slots that point at an
      aggregate rather than at the default implementation; `logPrint` is set without an aggregate. */
  datatype Platform = Platform(current: Callbacks, aggregated: set<PlatformSlot>, logPrint: Option<nat>)

  /** After the defaults are set: the structure is zeroed and nothing is aggregated. */
  const DEFAULT := Platform(Callbacks(0, 0, None, map[], None), {}, None)

  function SetStatus(arg: Option<Callbacks>): Status {
    if arg.None? then STATUS_NULL_ARG
    else if arg.value.version > CALLBACKS_CURRENT_VERSION then STATUS_INVALID_PLATFORM_CALLBACKS_VERSION
    else STATUS_SUCCESS
  }

  function Set(p: Platform, arg: Option<Callbacks>): Platform {
    if SetStatus(arg) != STATUS_SUCCESS then p
    else
      var cb := arg.value;
      Platform(cb, p.aggregated + cb.fns.Keys, if cb.logPrint.Some? then cb.logPrint else p.logPrint)
  }

  function SetAll(args: seq<Option<Callbacks>>): Platform {
    if args == [] then DEFAULT else Set(SetAll(args[..|args| - 1]), args[|args| - 1])
  }

  /** The structures that were accepted, in order. */
  function AcceptedSets(args: seq<Option<Callbacks>>): seq<Callbacks> {
    if args == [] then []
    else
      var last := args[|args| - 1];
      AcceptedSets(args[..|args| - 1]) + if SetStatus(last) == STATUS_SUCCESS then [last.value] else []
  }

  predicate EverSupplied(cbs: seq<Callbacks>, s: PlatformSlot) {
    exists i | 0 <= i < |cbs| :: s in cbs[i].fns
  }

  predicate LastSupplied(cbs: seq<Callbacks>, s: PlatformSlot) {
    cbs != [] && s in cbs[|cbs| - 1].fns
  }

  /** Calling the client slot does not run into an aggregate over a NULL function. */
  predicate DispatchSafe(p: Platform, s: PlatformSlot) {
    s in p.aggregated ==> s in p.current.fns
  }

  lemma EverSuppliedSnoc(cbs: seq<Callbacks>, cb: Callbacks, s: PlatformSlot)
    ensures EverSupplied(cbs + [cb], s) <==> EverSupplied(cbs, s) || s in cb.fns
  {
    var more := cbs + [cb];
    if EverSupplied(cbs, s) {
      var i :| 0 <= i < |cbs| && s in cbs[i].fns;
      assert s in more[i].fns;
    }
    if s in cb.fns {
      assert s in more[|cbs|].fns;
    }
  }

  predicate Describes(p: Platform, cbs: seq<Callbacks>, s: PlatformSlot) {
    && (s in p.aggregated <==> EverSupplied(cbs, s))
    && (if cbs == [] then p.current == DEFAULT.current else p.current == cbs[|cbs| - 1])
  }

  lemma {:induction false} HistoryDescribes(args: seq<Option<Callbacks>>, s: PlatformSlot)
    ensures Describes(SetAll(args), AcceptedSets(args), s)
  {
    if args == [] {
    } else {
      var n := |args| - 1;
      HistoryDescribes(args[..n], s);
      var cbs := AcceptedSets(args[..n]);
      if SetStatus(args[n]) == STATUS_SUCCESS {
        EverSuppliedSnoc(cbs, args[n].value, s);
      } else {
        assert cbs + [] == cbs;
      }
    }
  }

  /** An aggregate is installed exactly for the slots some accepted call supplied, what it forwards to
      is what the last accepted call supplied, and so the slot stays callable exactly when it was
      never supplied or the last accepted call supplied it too. */
  lemma PlatformHistory(args: seq<Option<Callbacks>>, s: PlatformSlot)
    ensures
      var p, cbs := SetAll(args), AcceptedSets(args);
      && (s in p.aggregated <==> EverSupplied(cbs, s))
      && (s in p.current.fns <==> LastSupplied(cbs, s))
      && (LastSupplied(cbs, s) ==> p.current.fns[s] == cbs[|cbs| - 1].fns[s])
      && (DispatchSafe(p, s) <==> !EverSupplied(cbs, s) || LastSupplied(cbs, s))
  {
    HistoryDescribes(args, s);
  }

  /** The print function in force is the last one that an accepted call supplied. */
  predicate LastLogPrint(cbs: seq<Callbacks>, fn: Option<nat>) {
    if fn.None? then forall i | 0 <= i < |cbs| :: cbs[i].logPrint.None?
    else exists i | 0 <= i < |cbs| :: cbs[i].logPrint == fn && forall j | i < j < |cbs| :: cbs[j].logPrint.None?
  }

  lemma {:induction false} LogPrintHistory(args: seq<Option<Callbacks>>)
    ensures LastLogPrint(AcceptedSets(args), SetAll(args).logPrint)
  {
    if args == [] {
    } else {
      var n := |args| - 1;
      LogPrintHistory(args[..n]);
      var cbs := AcceptedSets(args[..n]);
      if SetStatus(args[n]) == STATUS_SUCCESS {
        var more := cbs + [args[n].value];
        var fn := SetAll(args[..n]).logPrint;
        if args[n].value.logPrint.Some? {
          assert more[|cbs|].logPrint == SetAll(args).logPrint;
        } else if fn.Some? {
          var i :| 0 <= i < |cbs| && cbs[i].logPrint == fn && forall j | i < j < |cbs| :: cbs[j].logPrint.None?;
          assert more[i].logPrint == fn;
        }
      }
    }
  }

  /** A call is accepted exactly when there is a structure of version 0. */
  lemma SetAcceptedExactly(arg: Option<Callbacks>)
    ensures SetStatus(arg) == (if arg.None? then 0x00000001 else if arg.value.version > 0 then 0x15000003 else 0)
  {}

  /** Supplied once and then left out, a slot keeps its aggregate over a NULL function. */
  lemma AggregateOverNull(s: PlatformSlot, fn: nat)
    ensures
      var first, second := Callbacks(0, 0, None, map[s := fn], None), Callbacks(0, 0, None, map[], None);
      !DispatchSafe(SetAll([Some(first), Some(second)]), s)
  {
    var first, second := Callbacks(0, 0, None, map[s := fn], None), Callbacks(0, 0, None, map[], None);
    var args := [Some(first), Some(second)];
    assert args[..1] == [Some(first)] && args[..1][..0] == [];
    assert SetAll(args[..1]) == Set(DEFAULT, Some(first));
  }
}
