/**
 The provider in the program's own form: one array of cells behind the provider's own fields,
 registration, dispatch and teardown by loops over it.
 */
module CallbacksProvider {
  import opened Statuses
  import opened Wrappers
  import opened CallbackChains
  import opened ChainLayout
  import P = PlatformCallbacks

  const NO_ENTRY := Entry(0, 0, None, map[])

  function Base(limit: nat, c: Chain): nat {
    match c case Producer => 0 case Stream => limit case Auth => 2 * limit case Api => 3 * limit
  }

  /** The cells lie as the bytes do, with every entry one cell and no header. */
  lemma CellsLikeBytes(limit: nat, c: Chain)
    ensures
      var z := Sizes(0, 1, 1, 1, 1);
      Base(limit, c) == z.Start(limit, c) && 4 * limit == z.Allocation(limit)
  {}

  predicate Fits(limit: nat, n: Counts) {
    n.producer <= limit && n.stream <= limit && n.auth <= limit && n.api <= limit
  }

  /** The used part of one chain's region of the storage. */
  function Used(s: seq<Entry>, limit: nat, n: Counts, c: Chain): (es: seq<Entry>)
    requires |s| == 4 * limit && Fits(limit, n)
    ensures |es| == n.Get(c)
  {
    s[Base(limit, c)..Base(limit, c) + n.Get(c)]
  }

  /** The four chains that the storage stands for. */
  function Carve(s: seq<Entry>, limit: nat, n: Counts): Chains
    requires |s| == 4 * limit && Fits(limit, n)
  {
    Chains(Used(s, limit, n, Producer), Used(s, limit, n, Stream), Used(s, limit, n, Auth), Used(s, limit, n, Api))
  }

  lemma SliceExtended<T>(s: seq<T>, lo: nat, k: nat, x: T)
    requires lo <= k < |s|
    ensures s[k := x][lo..k + 1] == s[lo..k] + [x]
  {}

  lemma SliceKept<T>(s: seq<T>, lo: nat, hi: nat, k: nat, x: T)
    requires lo <= hi <= |s| && k < |s| && !(lo <= k < hi)
    ensures s[k := x][lo..hi] == s[lo..hi]
  {}

  /** The next free cell of one chain lies outside the used part of every other. */
  lemma RegionsApart(limit: nat, n: Counts, c: Chain, d: Chain)
    requires Fits(limit, n) && n.Get(c) < limit && c != d
    ensures Base(limit, c) + n.Get(c) < 4 * limit && Base(limit, d) + n.Get(d) <= 4 * limit
    ensures !(Base(limit, d) <= Base(limit, c) + n.Get(c) < Base(limit, d) + n.Get(d))
    ensures n.Inc(c).Get(d) == n.Get(d)
  {}

  lemma OwnRegion(limit: nat, n: Counts, c: Chain)
    requires Fits(limit, n) && n.Get(c) < limit
    ensures Base(limit, c) + n.Get(c) < 4 * limit
    ensures n.Inc(c).Get(c) == n.Get(c) + 1 && Fits(limit, n.Inc(c))
  {}

  lemma UsedExtended(s: seq<Entry>, limit: nat, n: Counts, c: Chain, e: Entry)
    requires |s| == 4 * limit && Fits(limit, n) && n.Get(c) < limit
    ensures Fits(limit, n.Inc(c))
    ensures Used(s[Base(limit, c) + n.Get(c) := e], limit, n.Inc(c), c) == Used(s, limit, n, c) + [e]
  {
    OwnRegion(limit, n, c);
    SliceExtended(s, Base(limit, c), Base(limit, c) + n.Get(c), e);
  }

  /** A write outside the used part of a chain does not show in it. */
  lemma UsedElsewhere(s: seq<Entry>, limit: nat, n: Counts, m: Counts, d: Chain, k: nat, e: Entry)
    requires |s| == 4 * limit && Fits(limit, n) && Fits(limit, m) && m.Get(d) == n.Get(d)
    requires k < |s| && !(Base(limit, d) <= k < Base(limit, d) + n.Get(d))
    ensures Used(s[k := e], limit, m, d) == Used(s, limit, n, d)
  {
    SliceKept(s, Base(limit, d), Base(limit, d) + n.Get(d), k, e);
  }

  lemma UsedKept(s: seq<Entry>, limit: nat, n: Counts, c: Chain, d: Chain, e: Entry)
    requires |s| == 4 * limit && Fits(limit, n) && n.Get(c) < limit && c != d
    ensures Fits(limit, n.Inc(c))
    ensures Used(s[Base(limit, c) + n.Get(c) := e], limit, n.Inc(c), d) == Used(s, limit, n, d)
  {
    OwnRegion(limit, n, c);
    RegionsApart(limit, n, c, d);
    UsedElsewhere(s, limit, n, n.Inc(c), d, Base(limit, c) + n.Get(c), e);
  }

  /** One write to the storage appends to one chain and leaves the other three alone. */
  lemma WriteAppends(s: seq<Entry>, limit: nat, n: Counts, c: Chain, e: Entry)
    requires |s| == 4 * limit && Fits(limit, n) && n.Get(c) < limit
    ensures Fits(limit, n.Inc(c))
    ensures
      var t := Carve(s, limit, n);
      Carve(s[Base(limit, c) + n.Get(c) := e], limit, n.Inc(c)) == t.With(c, t.Get(c) + [e])
  {
    UsedExtended(s, limit, n, c, e);
    if c != Producer { UsedKept(s, limit, n, c, Producer, e); }
    if c != Stream { UsedKept(s, limit, n, c, Stream, e); }
    if c != Auth { UsedKept(s, limit, n, c, Auth, e); }
    if c != Api { UsedKept(s, limit, n, c, Api, e); }
  }

  /** The guard against registering what would be freed twice, over n cells from base that hold `es`. */
  method HasDuplicate(cells: array<Entry>, base: nat, n: nat, ghost es: seq<Entry>, e: Entry) returns (found: bool)
    requires base + n <= cells.Length && es == cells[base..base + n]
    ensures found <==> Duplicate(es, e)
  {
    for i := 0 to n
      invariant forall k | 0 <= k < i :: !SameFree(es[k], e)
    {
      var entry := cells[base + i];
      assert es[i] == entry;
      if !(e.freeFn.None? || entry.customData != e.customData || entry.freeFn != e.freeFn) {
        return true;
      }
    }
    return false;
  }

  /** The loop every aggregate runs; `reply(i)` is what the callback at position i returns. */
  method RunRegion(cells: array<Entry>, base: nat, n: nat, ghost es: seq<Entry>, s: Slot, reply: nat -> Status)
    returns (ret: Status, called: seq<nat>)
    requires base + n <= cells.Length && es == cells[base..base + n]
    ensures IsDispatch(es, s, reply, called, ret)
  {
    ret := STATUS_SUCCESS;
    called := [];
    for i := 0 to n
      invariant ret == STATUS_SUCCESS
      invariant called == Eligible(es[..i], s)
      invariant AllSucceed(called, reply)
    {
      var e := cells[base + i];
      assert es[i] == e;
      EligibleSnoc(es, s, i);
      if s in e.fns {
        ret := reply(i);
        called := called + [i];
        if ret != STATUS_SUCCESS {
          DispatchStopped(es, s, reply, i);
          if ret == STATUS_STOP_CALLBACK_CHAIN {
            ret := STATUS_SUCCESS;
          }
          return;
        }
      }
    }
    assert es[..n] == es;
    DispatchFinished(es, s, reply);
  }

  /** Slot by slot, the dispatch goes along the chain of the structure that the slot is in. */
  ghost predicate AlongItsChain(t: Chains, s: Slot, reply: nat -> Status, called: seq<nat>, ret: Status) {
    && (ProducerSlot(s) ==> IsDispatch(t.producer, s, reply, called, ret))
    && (StreamSlot(s) ==> IsDispatch(t.stream, s, reply, called, ret))
    && (AuthSlot(s) ==> IsDispatch(t.auth, s, reply, called, ret))
    && (ApiSlot(s) ==> IsDispatch(t.api, s, reply, called, ret))
  }

  lemma ItsChain(t: Chains, s: Slot, reply: nat -> Status, called: seq<nat>, ret: Status)
    requires IsDispatch(t.Get(s.ChainOf()), s, reply, called, ret)
    ensures AlongItsChain(t, s, reply, called, ret)
  {
    SlotTable(s);
  }

  /** The free calls for n cells from base, in index order. */
  method FreeRegion(cells: array<Entry>, base: nat, n: nat, ghost es: seq<Entry>) returns (calls: seq<Free>)
    requires base + n <= cells.Length && es == cells[base..base + n]
    ensures calls == Frees(es) && CallsInOrder(calls, es)
  {
    FreesInOrder(es);
    calls := [];
    for i := 0 to n
      invariant calls == Frees(es[..i])
    {
      var e := cells[base + i];
      assert es[i] == e;
      assert es[..i + 1][..i] == es[..i];
      if e.freeFn.Some? {
        calls := calls + [(e.freeFn.value, e.customData)];
      }
    }
    assert es[..n] == es;
  }

  class Provider {
    const limit: nat
    const cells: array<Entry>  // limit entries for each of the four chains, in order
    var counts: Counts
    var installed: set<Slot>
    var platform: P.Platform

    predicate Valid()
      reads `counts
    {
      cells.Length == 4 * limit && Fits(limit, counts)
    }

    function Entries(): Chains
      requires Valid()
      reads `counts, cells
    {
      Carve(cells[..], limit, counts)
    }

    /** The four bounded sequences and the installed slots. */
    function Abs(): CallbackChains.Provider
      requires Valid()
      reads `counts, `installed, cells
    {
      CallbackChains.Provider(limit, Entries(), installed)
    }

    constructor (n: nat)
      ensures Valid() && fresh(cells) && limit == n
      ensures Abs() == Empty(n) && platform == P.DEFAULT
    {
      limit := n;
      cells := new Entry[4 * n](_ => NO_ENTRY);
      counts := Counts(0, 0, 0, 0);
      installed := {};
      platform := P.DEFAULT;
    }

    /** Writes the entry into the chain's next free cell. */
    method Append(c: Chain, e: Entry)
      requires Valid() && counts.Get(c) < limit
      modifies `counts, cells
      ensures Valid()
      ensures Entries() == old(Entries()).With(c, old(Entries()).Get(c) + [e])
    {
      var k := Base(limit, c) + counts.Get(c);
      ghost var before := cells[..];
      WriteAppends(before, limit, counts, c, e);
      cells[k] := e;
      counts := counts.Inc(c);
      assert cells[..] == before[k := e];
    }

    lemma RegionIsUsed(c: Chain)
      requires Valid()
      ensures Base(limit, c) + counts.Get(c) <= cells.Length
      ensures cells[Base(limit, c)..Base(limit, c) + counts.Get(c)] == Entries().Get(c)
    {}

    method WouldFreeTwice(c: Chain, e: Entry) returns (found: bool)
      requires Valid()
      ensures found <==> Duplicate(Entries().Get(c), e)
    {
      RegionIsUsed(c);
      found := HasDuplicate(cells, Base(limit, c), counts.Get(c), Entries().Get(c), e);
    }

    /** Registers one structure with a chain. */
    method AddCallbacks(c: Chain, arg: Option<Entry>) returns (status: Status)
      requires Valid()
      modifies `counts, `installed, cells
      ensures Valid()
      ensures status == AddStatus(old(Abs()), c, arg)
      ensures Abs() == Add(old(Abs()), c, arg)
    {
      if arg.None? {
        return STATUS_NULL_ARG;
      }
      var e := arg.value;
      if e.version > CALLBACKS_CURRENT_VERSION {
        return InvalidVersion(c);
      }
      if counts.Get(c) >= limit {
        return STATUS_MAX_CALLBACK_CHAIN;
      }
      var found := WouldFreeTwice(c, e);
      if found {
        return DuplicateFreeFunc(c);
      }
      Append(c, e);
      installed := installed + SlotsFor(e, c);
      return STATUS_SUCCESS;
    }

    /** The aggregate behind a client slot. */
    method Aggregate(s: Slot, reply: nat -> Status) returns (ret: Status, called: seq<nat>)
      requires Valid()
      ensures IsDispatch(Entries().Get(s.ChainOf()), s, reply, called, ret)
      ensures AlongItsChain(Entries(), s, reply, called, ret)
    {
      var c := s.ChainOf();
      RegionIsUsed(c);
      ret, called := RunRegion(cells, Base(limit, c), counts.Get(c), Entries().Get(c), s, reply);
      ItsChain(Entries(), s, reply, called, ret);
    }

    method SetPlatformCallbacks(arg: Option<P.Callbacks>) returns (status: Status)
      modifies `platform
      ensures status == P.SetStatus(arg) && platform == P.Set(old(platform), arg)
    {
      if arg.None? {
        return STATUS_NULL_ARG;
      }
      var cb := arg.value;
      if cb.version > CALLBACKS_CURRENT_VERSION {
        return STATUS_INVALID_PLATFORM_CALLBACKS_VERSION;
      }
      platform := platform.(current := cb);
      platform := platform.(aggregated := platform.aggregated + cb.fns.Keys);
      if cb.logPrint.Some? {
        platform := platform.(logPrint := cb.logPrint);
      }
      return STATUS_SUCCESS;
    }

    method FreeChain(c: Chain) returns (calls: seq<Free>)
      requires Valid()
      ensures calls == Frees(Entries().Get(c)) && CallsInOrder(calls, Entries().Get(c))
    {
      RegionIsUsed(c);
      calls := FreeRegion(cells, Base(limit, c), counts.Get(c), Entries().Get(c));
    }
  }

  function PlatformFrees(p: P.Platform): seq<Free> {
    if p.current.freeFn.Some? then [(p.current.freeFn.value, p.current.customData)] else []
  }

  /** Only the structure set last is freed; one that was replaced never is. */
  lemma OnlyLastPlatformFreed(args: seq<Option<P.Callbacks>>)
    ensures
      var cbs := P.AcceptedSets(args);
      PlatformFrees(P.SetAll(args)) ==
      if cbs == [] || cbs[|cbs| - 1].freeFn.None? then []
      else [(cbs[|cbs| - 1].freeFn.value, cbs[|cbs| - 1].customData)]
  {
    P.HistoryDescribes(args, P.GetCurrentTime);
  }

  /** The calls fall into five parts: the platform's, then those of the producer, stream, auth and api
      chains, each in registration order. */
  predicate InTeardownOrder(calls: seq<Free>, platform: seq<Free>, t: Chains) {
    exists a: nat, b: nat, c: nat, d: nat | a <= b <= c <= d <= |calls| ::
      && calls[..a] == platform && CallsInOrder(calls[a..b], t.producer) && CallsInOrder(calls[b..c], t.stream)
      && CallsInOrder(calls[c..d], t.auth) && CallsInOrder(calls[d..], t.api)
  }

  lemma TeardownOrder(platform: seq<Free>, p: seq<Free>, q: seq<Free>, r: seq<Free>, s: seq<Free>, t: Chains)
    requires CallsInOrder(p, t.producer) && CallsInOrder(q, t.stream) && CallsInOrder(r, t.auth) && CallsInOrder(s, t.api)
    ensures InTeardownOrder(platform + p + q + r + s, platform, t)
  {
    var calls := platform + p + q + r + s;
    var a := |platform|;
    var b := a + |p|;
    var c := b + |q|;
    var d := c + |r|;
    assert calls[..a] == platform && calls[a..b] == p && calls[b..c] == q && calls[c..d] == r && calls[d..] == s;
  }

  /** The caller's pointer to a provider. */
  class Handle {
    var provider: Provider?

    constructor ()
      ensures provider == null
    {
      provider := null;
    }

    /** Allocates a provider unless the chain length asked for is out of range. */
    method Create(n: nat) returns (status: Status)
      modifies this
      ensures n >= 20 ==> status == 0x00000002 && provider == null
      ensures n < 20 ==>
        && status == STATUS_SUCCESS && provider != null && fresh(provider)
        && provider.Valid() && provider.Abs() == Empty(n) && provider.platform == P.DEFAULT
    {
      provider := null;
      if n >= MAX_CALLBACK_CHAIN_COUNT {
        return STATUS_INVALID_ARG;
      }
      provider := new Provider(n);
      return STATUS_SUCCESS;
    }

    /** Registration through a pointer that may be NULL. */
    method AddCallbacks(c: Chain, arg: Option<Entry>) returns (status: Status)
      requires provider != null ==> provider.Valid()
      modifies provider, if provider == null then {} else {provider.cells}
      ensures provider == null ==> status == 0x00000001
      ensures provider != null ==>
        && provider.Valid() && status == AddStatus(old(provider.Abs()), c, arg)
        && provider.Abs() == Add(old(provider.Abs()), c, arg)
    {
      if provider == null {
        return STATUS_NULL_ARG;
      }
      status := provider.AddCallbacks(c, arg);
    }

    /** An aggregate called with custom data that may be NULL. */
    method Aggregate(s: Slot, reply: nat -> Status) returns (ret: Status, called: seq<nat>)
      requires provider != null ==> provider.Valid()
      ensures provider == null ==> ret == 0x00000002 && called == []
      ensures provider != null ==> AlongItsChain(provider.Entries(), s, reply, called, ret)
    {
      if provider == null {
        return STATUS_INVALID_ARG, [];
      }
      ret, called := provider.Aggregate(s, reply);
    }

    /** Frees the provider and clears the pointer; on a cleared pointer it does nothing. */
    method FreeProvider() returns (status: Status, calls: seq<Free>)
      requires provider != null ==> provider.Valid()
      modifies this
      ensures status == STATUS_SUCCESS && provider == null
      ensures old(provider) == null ==> calls == []
      ensures old(provider) != null ==>
        calls == TeardownCalls(PlatformFrees(old(provider.platform)), old(provider.Abs()).chains)
      ensures old(provider) != null ==>
        InTeardownOrder(calls, PlatformFrees(old(provider.platform)), old(provider.Abs()).chains)
    {
      status, calls := STATUS_SUCCESS, [];
      if provider == null {
        return;
      }
      var p := provider;
      if p.platform.current.freeFn.Some? {
        calls := [(p.platform.current.freeFn.value, p.platform.current.customData)];
      }
      var producer := p.FreeChain(Producer);
      var stream := p.FreeChain(Stream);
      var auth := p.FreeChain(Auth);
      var api := p.FreeChain(Api);
      TeardownOrder(calls, producer, stream, auth, api, p.Entries());
      calls := calls + producer + stream + auth + api;
      provider := null;
    }
  }
}
