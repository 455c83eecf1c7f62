/**
 Callback chains as values: four bounded sequences of registered entries, guarded registration,
 dispatch along a chain, and teardown.
 */
module CallbackChains {
  import opened Wrappers
  import opened Statuses

  const CALLBACKS_CURRENT_VERSION := 0
  const MAX_CALLBACK_CHAIN_COUNT := 20

  datatype Chain = Producer | Stream | Auth | Api

  function InvalidVersion(c: Chain): Status {
    STATUS_PRODUCER_BASE +
    match c case Producer => 0x04 case Stream => 0x05 case Auth => 0x06 case Api => 0x07
  }

  function DuplicateFreeFunc(c: Chain): Status {
    STATUS_PRODUCER_BASE +
    match c case Producer => 0x19 case Stream => 0x1a case Auth => 0x1b case Api => 0x1c
  }

  datatype Slot =
    | StorageOverflowPressure | ClientReady | ClientShutdown
    | StreamUnderflowReport | BufferDurationOverflowPressure | StreamLatencyPressure
    | StreamConnectionStale | DroppedFrameReport | DroppedFragmentReport | StreamErrorReport
    | FragmentAckReceived | StreamDataAvailable | StreamReady | StreamClosed | StreamShutdown
    | GetSecurityToken | GetDeviceCertificate | DeviceCertToToken | GetDeviceFingerprint | GetStreamingToken
    | CreateStream | DescribeStream | GetStreamingEndpoint | PutStream | TagResource | CreateDevice
  {
    function ChainOf(): Chain {
      match this
      case StorageOverflowPressure | ClientReady | ClientShutdown => Producer
      case GetSecurityToken | GetDeviceCertificate | DeviceCertToToken | GetDeviceFingerprint | GetStreamingToken => Auth
      case CreateStream | DescribeStream | GetStreamingEndpoint | PutStream | TagResource | CreateDevice => Api
      case _ => Stream
    }
  }

  /** The slots of each of the four callback structures. */
  predicate ProducerSlot(s: Slot) {
    s.StorageOverflowPressure? || s.ClientReady? || s.ClientShutdown?
  }

  predicate StreamSlot(s: Slot) {
    || s.StreamUnderflowReport? || s.BufferDurationOverflowPressure? || s.StreamLatencyPressure?
    || s.StreamConnectionStale? || s.DroppedFrameReport? || s.DroppedFragmentReport? || s.StreamErrorReport?
    || s.FragmentAckReceived? || s.StreamDataAvailable? || s.StreamReady? || s.StreamClosed? || s.StreamShutdown?
  }

  predicate AuthSlot(s: Slot) {
    || s.GetSecurityToken? || s.GetDeviceCertificate? || s.DeviceCertToToken? || s.GetDeviceFingerprint?
    || s.GetStreamingToken?
  }

  predicate ApiSlot(s: Slot) {
    || s.CreateStream? || s.DescribeStream? || s.GetStreamingEndpoint? || s.PutStream? || s.TagResource?
    || s.CreateDevice?
  }

  lemma SlotTable(s: Slot)
    ensures s.ChainOf() == Producer <==> ProducerSlot(s)
    ensures s.ChainOf() == Stream <==> StreamSlot(s)
    ensures s.ChainOf() == Auth <==> AuthSlot(s)
    ensures s.ChainOf() == Api <==> ApiSlot(s)
  {}

  /** One registered callback structure; function pointers are numbers, an absent slot is NULL. */
  datatype Entry = Entry(version: nat, customData: nat, freeFn: Option<nat>, fns: map<Slot, nat>)

  datatype Chains = Chains(producer: seq<Entry>, stream: seq<Entry>, auth: seq<Entry>, api: seq<Entry>)
  {
    function Get(c: Chain): seq<Entry> {
      match c case Producer => producer case Stream => stream case Auth => auth case Api => api
    }
    function With(c: Chain, es: seq<Entry>): Chains {
      match c
      case Producer => this.(producer := es)
      case Stream => this.(stream := es)
      case Auth => this.(auth := es)
      case Api => this.(api := es)
    }
  }

  datatype Counts = Counts(producer: nat, stream: nat, auth: nat, api: nat)
  {
    function Get(c: Chain): nat {
      match c case Producer => producer case Stream => stream case Auth => auth case Api => api
    }
    function Inc(c: Chain): Counts {
      match c
      case Producer => this.(producer := producer + 1)
      case Stream => this.(stream := stream + 1)
      case Auth => this.(auth := auth + 1)
      case Api => this.(api := api + 1)
    }
  }

  /** `installed` holds the client slots that have been pointed at their aggregate. */
  datatype Provider = Provider(limit: nat, chains: Chains, installed: set<Slot>)

  function Empty(limit: nat): Provider {
    Provider(limit, Chains([], [], [], []), {})
  }

  // ---- Registration ----

  predicate SameFree(a: Entry, b: Entry) {
    b.freeFn.Some? && a.customData == b.customData && a.freeFn == b.freeFn
  }

  predicate Duplicate(es: seq<Entry>, e: Entry) {
    exists i | 0 <= i < |es| :: SameFree(es[i], e)
  }

  function SlotsFor(e: Entry, c: Chain): set<Slot> {
    set s: Slot | s in e.fns && s.ChainOf() == c
  }

  function AddStatus(p: Provider, c: Chain, arg: Option<Entry>): Status {
    if arg.None? then STATUS_NULL_ARG
    else if arg.value.version > CALLBACKS_CURRENT_VERSION then InvalidVersion(c)
    else if |p.chains.Get(c)| >= p.limit then STATUS_MAX_CALLBACK_CHAIN
    else if Duplicate(p.chains.Get(c), arg.value) then DuplicateFreeFunc(c)
    else STATUS_SUCCESS
  }

  function Add(p: Provider, c: Chain, arg: Option<Entry>): Provider {
    if AddStatus(p, c, arg) != STATUS_SUCCESS then p
    else Provider(p.limit,
                  p.chains.With(c, p.chains.Get(c) + [arg.value]),
                  p.installed + SlotsFor(arg.value, c))
  }

  type Request = (Chain, Option<Entry>)

  function AddAll(p: Provider, requests: seq<Request>): Provider {
    if requests == [] then p
    else
      var last := requests[|requests| - 1];
      Add(AddAll(p, requests[..|requests| - 1]), last.0, last.1)
  }

  /** No two entries of a chain share both their data and a non-NULL free function. */
  predicate FreesDistinct(es: seq<Entry>) {
    forall i, j | 0 <= i < j < |es| :: !SameFree(es[i], es[j])
  }

  predicate SuppliedBy(es: seq<Entry>, s: Slot) {
    exists i | 0 <= i < |es| :: s in es[i].fns
  }

  predicate Supplied(p: Provider, s: Slot) {
    SuppliedBy(p.chains.Get(s.ChainOf()), s)
  }

  /** A slot is installed exactly when an entry of its chain supplies it; no chain is longer than
      the limit; no chain would free anything twice. */
  predicate WellFormed(p: Provider) {
    && (forall s: Slot :: s in p.installed <==> Supplied(p, s))
    && (forall c: Chain :: |p.chains.Get(c)| <= p.limit && FreesDistinct(p.chains.Get(c)))
  }

  lemma AddKeepsWellFormed(p: Provider, c: Chain, arg: Option<Entry>)
    requires WellFormed(p)
    ensures WellFormed(Add(p, c, arg))
  {
    var q := Add(p, c, arg);
    if q != p {
      var es := p.chains.Get(c);
      forall s: Slot ensures s in q.installed <==> Supplied(q, s) {
        if s.ChainOf() == c {
          assert q.chains.Get(c) == es + [arg.value];
          if s in arg.value.fns { assert s in q.chains.Get(c)[|es|].fns; }
          if s in p.installed {
            var i :| 0 <= i < |es| && s in es[i].fns;
            assert s in q.chains.Get(c)[i].fns;
          }
        } else {
          assert q.chains.Get(s.ChainOf()) == p.chains.Get(s.ChainOf());
          assert Supplied(q, s) <==> Supplied(p, s);
        }
      }
      forall d: Chain ensures |q.chains.Get(d)| <= q.limit && FreesDistinct(q.chains.Get(d)) {
        assert FreesDistinct(p.chains.Get(d));
      }
    }
  }

  /** Whatever is registered, accepted or not, in whatever order. */
  lemma {:induction false} EveryHistoryWellFormed(limit: nat, requests: seq<Request>)
    ensures WellFormed(AddAll(Empty(limit), requests))
  {
    if requests == [] {
    } else {
      var n := |requests| - 1;
      EveryHistoryWellFormed(limit, requests[..n]);
      AddKeepsWellFormed(AddAll(Empty(limit), requests[..n]), requests[n].0, requests[n].1);
    }
  }

  /** Slot by slot: whatever is registered, a slot of the producer, stream, auth or api structure points at its
      aggregate exactly when an entry of that very chain supplies it. */
  lemma InstalledByChain(limit: nat, requests: seq<Request>, s: Slot)
    ensures
      var p := AddAll(Empty(limit), requests);
      && (ProducerSlot(s) ==> (s in p.installed <==> SuppliedBy(p.chains.producer, s)))
      && (StreamSlot(s) ==> (s in p.installed <==> SuppliedBy(p.chains.stream, s)))
      && (AuthSlot(s) ==> (s in p.installed <==> SuppliedBy(p.chains.auth, s)))
      && (ApiSlot(s) ==> (s in p.installed <==> SuppliedBy(p.chains.api, s)))
    ensures ProducerSlot(s) || StreamSlot(s) || AuthSlot(s) || ApiSlot(s)
  {
    EveryHistoryWellFormed(limit, requests);
    SlotTable(s);
    var p := AddAll(Empty(limit), requests);
    assert s in p.installed <==> Supplied(p, s);
  }

  /** A request changes the chain it is for and no other, and does so exactly when it is accepted. */
  lemma RequestTouchesOneChain(p: Provider, c: Chain, arg: Option<Entry>)
    ensures
      var t, u := p.chains, Add(p, c, arg).chains;
      var added := if AddStatus(p, c, arg) == STATUS_SUCCESS then [arg.value] else [];
      && u.producer == (if c == Producer then t.producer + added else t.producer)
      && u.stream == (if c == Stream then t.stream + added else t.stream)
      && u.auth == (if c == Auth then t.auth + added else t.auth)
      && u.api == (if c == Api then t.api + added else t.api)
  {}

  /** The entries accepted for one chain, in the order of the requests. */
  function AcceptedFor(p: Provider, requests: seq<Request>, c: Chain): seq<Entry> {
    if requests == [] then []
    else
      var n := |requests| - 1;
      var last := requests[n];
      AcceptedFor(p, requests[..n], c) +
      if last.0 == c && AddStatus(AddAll(p, requests[..n]), c, last.1) == STATUS_SUCCESS then [last.1.value] else []
  }

  /** Each chain holds exactly what was accepted for it, in order: a request touches one chain at most. */
  lemma {:induction false} ChainHoldsItsRequests(limit: nat, requests: seq<Request>, c: Chain)
    ensures AddAll(Empty(limit), requests).chains.Get(c) == AcceptedFor(Empty(limit), requests, c)
  {
    if requests == [] {
    } else {
      var n := |requests| - 1;
      ChainHoldsItsRequests(limit, requests[..n], c);
    }
  }

  /** A request is accepted exactly when there is a structure, of version 0, the chain holds fewer entries
      than the limit, and none of them has the same data and the same free function, unless that is NULL. */
  lemma AcceptedExactly(p: Provider, c: Chain, arg: Option<Entry>)
    ensures AddStatus(p, c, arg) == STATUS_SUCCESS <==>
      && arg.Some? && arg.value.version == 0 && |p.chains.Get(c)| < p.limit
      && forall i | 0 <= i < |p.chains.Get(c)| ::
        arg.value.freeFn.None?
        || p.chains.Get(c)[i].freeFn != arg.value.freeFn || p.chains.Get(c)[i].customData != arg.value.customData
  {
    if arg.Some? && AddStatus(p, c, arg) == STATUS_SUCCESS {
      var es := p.chains.Get(c);
      assert forall i | 0 <= i < |es| :: !SameFree(es[i], arg.value);
    }
  }

  /** The status of a rejected request names the first test it fails, in this order, and the chain. */
  lemma RejectedBecause(p: Provider, c: Chain, arg: Option<Entry>)
    ensures
      var status := AddStatus(p, c, arg);
      && (arg.None? <==> status == 0x00000001)
      && (arg.Some? && arg.value.version > 0 <==>
            status == match c
                      case Producer => 0x15000004 case Stream => 0x15000005
                      case Auth => 0x15000006 case Api => 0x15000007)
      && (arg.Some? && arg.value.version == 0 && |p.chains.Get(c)| >= p.limit <==> status == 0x15000002)
      && (status != 0 && arg.Some? && arg.value.version == 0 && |p.chains.Get(c)| < p.limit <==>
            status == match c
                      case Producer => 0x15000019 case Stream => 0x1500001a
                      case Auth => 0x1500001b case Api => 0x1500001c)
  {}

  // ---- Dispatch along a chain ----

  /** The positions whose entry supplies the slot, in registration order. */
  function Eligible(es: seq<Entry>, s: Slot): seq<nat> {
    if es == [] then []
    else
      var n := |es| - 1;
      Eligible(es[..n], s) + if s in es[n].fns then [n] else []
  }

  lemma {:induction false} EligibleMeaning(es: seq<Entry>, s: Slot)
    ensures forall i :: i in Eligible(es, s) <==> 0 <= i < |es| && s in es[i].fns
    ensures forall a, b | 0 <= a < b < |Eligible(es, s)| :: Eligible(es, s)[a] < Eligible(es, s)[b]
  {
    if es == [] {
    } else {
      var n := |es| - 1;
      EligibleMeaning(es[..n], s);
      forall a | 0 <= a < |Eligible(es[..n], s)| ensures Eligible(es[..n], s)[a] < n {
        assert Eligible(es[..n], s)[a] in Eligible(es[..n], s);
      }
    }
  }

  /** `called` is `all` up to and including the first position whose callback does not succeed. */
  ghost predicate UpToFirstFailure(all: seq<nat>, reply: nat -> Status, called: seq<nat>) {
    var n := |called|;
    && n <= |all| && called == all[..n]
    && (forall k | 0 <= k < n - 1 :: reply(called[k]) == STATUS_SUCCESS)
    && (n < |all| ==> n > 0 && reply(called[n - 1]) != STATUS_SUCCESS)
  }

  /** `called` are the positions called and `ret` the status returned, where `reply(i)` is what the
      callback at position i returns: the eligible positions in order, up to and including the
      first that does not succeed; a stop request counts as success, any other failure is passed on. */
  ghost predicate IsDispatch(es: seq<Entry>, s: Slot, reply: nat -> Status, called: seq<nat>, ret: Status) {
    var n := |called|;
    && UpToFirstFailure(Eligible(es, s), reply, called)
    && ret == if n == 0 || reply(called[n - 1]) == STATUS_STOP_CALLBACK_CHAIN then STATUS_SUCCESS
              else reply(called[n - 1])
  }

  lemma FirstFailureUnique(all: seq<nat>, reply: nat -> Status, a: seq<nat>, b: seq<nat>)
    requires UpToFirstFailure(all, reply, a) && UpToFirstFailure(all, reply, b)
    ensures a == b
  {}

  /** The description leaves no choice. */
  lemma DispatchUnique(es: seq<Entry>, s: Slot, reply: nat -> Status,
                       called: seq<nat>, ret: Status, called': seq<nat>, ret': Status)
    requires IsDispatch(es, s, reply, called, ret) && IsDispatch(es, s, reply, called', ret')
    ensures called == called' && ret == ret'
  {
    FirstFailureUnique(Eligible(es, s), reply, called, called');
  }

  predicate AllSucceed(called: seq<nat>, reply: nat -> Status) {
    forall k | 0 <= k < |called| :: reply(called[k]) == STATUS_SUCCESS
  }

  lemma FirstFailureSnoc(all: seq<nat>, x: nat, reply: nat -> Status, called: seq<nat>)
    requires UpToFirstFailure(all, reply, called)
    ensures UpToFirstFailure(all + [x], reply, if AllSucceed(called, reply) then called + [x] else called)
  {
    if AllSucceed(called, reply) {
      assert called == all;
      assert (all + [x])[..|all| + 1] == all + [x];
    } else {
      assert (all + [x])[..|called|] == called;
    }
  }

  lemma EligibleSnoc(es: seq<Entry>, s: Slot, i: nat)
    requires i < |es|
    ensures Eligible(es[..i + 1], s) == Eligible(es[..i], s) + if s in es[i].fns then [i] else []
  {
    assert es[..i + 1][..i] == es[..i];
  }

  lemma {:induction false} EligiblePrefix(es: seq<Entry>, s: Slot, n: nat)
    requires n <= |es|
    ensures Eligible(es[..n], s) <= Eligible(es, s)
  {
    if n == |es| {
      assert es[..n] == es;
    } else {
      var init := es[..|es| - 1];
      EligiblePrefix(init, s, n);
      assert init[..n] == es[..n];
    }
  }

  /** Every eligible callback was called and succeeded. */
  lemma DispatchFinished(es: seq<Entry>, s: Slot, reply: nat -> Status)
    requires AllSucceed(Eligible(es, s), reply)
    ensures IsDispatch(es, s, reply, Eligible(es, s), STATUS_SUCCESS)
  {}

  /** The callback at position i is the first that did not succeed. */
  lemma DispatchStopped(es: seq<Entry>, s: Slot, reply: nat -> Status, i: nat)
    requires i < |es| && s in es[i].fns
    requires AllSucceed(Eligible(es[..i], s), reply) && reply(i) != STATUS_SUCCESS
    ensures IsDispatch(es, s, reply, Eligible(es[..i], s) + [i],
                       if reply(i) == 0x15000001 then 0 else reply(i))
  {
    EligibleSnoc(es, s, i);
    EligiblePrefix(es, s, i + 1);
    var called := Eligible(es[..i], s) + [i];
    assert UpToFirstFailure(Eligible(es, s), reply, called) by {
      assert forall k | 0 <= k < |called| - 1 :: called[k] == Eligible(es[..i], s)[k];
    }
  }

  /** Registering one more entry never changes the calls to earlier ones, and adds a call to the new
      one exactly when it supplies the slot and every call before it succeeded. */
  lemma AppendAddsAtMostOneCall(es: seq<Entry>, e: Entry, s: Slot, reply: nat -> Status,
                                called: seq<nat>, ret: Status, called': seq<nat>, ret': Status)
    requires IsDispatch(es, s, reply, called, ret) && IsDispatch(es + [e], s, reply, called', ret')
    ensures called' == called + if s in e.fns && AllSucceed(called, reply) then [|es|] else []
  {
    var all := Eligible(es, s);
    assert (es + [e])[..|es|] == es;
    if s in e.fns {
      assert Eligible(es + [e], s) == all + [|es|];
      FirstFailureSnoc(all, |es|, reply, called);
      FirstFailureUnique(all + [|es|], reply, called', if AllSucceed(called, reply) then called + [|es|] else called);
    } else {
      assert Eligible(es + [e], s) == all;
      FirstFailureUnique(all, reply, called, called');
    }
  }

  // ---- Teardown ----

  type Free = (nat, nat)  // free function, custom data

  function Frees(es: seq<Entry>): seq<Free> {
    if es == [] then []
    else
      var n := |es| - 1;
      Frees(es[..n]) + if es[n].freeFn.Some? then [(es[n].freeFn.value, es[n].customData)] else []
  }

  /** The positions of the entries that have a free function, in registration order. */
  function WithFree(es: seq<Entry>): (p: seq<nat>)
    ensures forall a, b | 0 <= a < b < |p| :: p[a] < p[b]
    ensures forall i :: i in p <==> 0 <= i < |es| && es[i].freeFn.Some?
  {
    if es == [] then []
    else
      var n := |es| - 1;
      var p := WithFree(es[..n]);
      assert forall a | 0 <= a < |p| :: p[a] in p && p[a] < n;
      p + if es[n].freeFn.Some? then [n] else []
  }

  /** The k-th free call is that of the k-th entry that has a free function. */
  predicate CallsInOrder(calls: seq<Free>, es: seq<Entry>) {
    var p := WithFree(es);
    |calls| == |p| &&
    forall k | 0 <= k < |p| ::
      p[k] in p && es[p[k]].freeFn == Some(calls[k].0) && es[p[k]].customData == calls[k].1
  }

  /** The free calls are made in registration order, one for each entry that has a free function. */
  lemma {:induction false} FreesInOrder(es: seq<Entry>)
    ensures CallsInOrder(Frees(es), es)
  {
    if es == [] {
    } else {
      var n := |es| - 1;
      FreesInOrder(es[..n]);
      var p := WithFree(es[..n]);
      forall k | 0 <= k < |p| ensures es[..n][p[k]] == es[p[k]] {
        assert p[k] in p;
      }
    }
  }

  /** The calls freeing makes: the platform's, then chain by chain. */
  function TeardownCalls(platform: seq<Free>, chains: Chains): seq<Free> {
    platform + Frees(chains.producer) + Frees(chains.stream) + Frees(chains.auth) + Frees(chains.api)
  }

  predicate NoRepeats<T(==)>(s: seq<T>) {
    forall i, j | 0 <= i < j < |s| :: s[i] != s[j]
  }

  lemma {:induction false} FreesMembers(es: seq<Entry>, f: Free)
    ensures f in Frees(es) <==> exists i | 0 <= i < |es| :: es[i].freeFn == Some(f.0) && es[i].customData == f.1
  {
    if es == [] {
    } else {
      var n := |es| - 1;
      FreesMembers(es[..n], f);
      assert forall i | 0 <= i < n :: es[..n][i] == es[i];
      if es[n].freeFn == Some(f.0) && es[n].customData == f.1 {
        assert f in [(es[n].freeFn.value, es[n].customData)];
      }
    }
  }

  /** Within a chain kept free of duplicates every pair of free function and data is called exactly
      once. */
  lemma {:induction false} ChainFreedOnce(es: seq<Entry>)
    requires FreesDistinct(es)
    ensures NoRepeats(Frees(es))
    ensures forall i | 0 <= i < |es| && es[i].freeFn.Some? :: (es[i].freeFn.value, es[i].customData) in Frees(es)
  {
    if es == [] {
    } else {
      var n := |es| - 1;
      assert FreesDistinct(es[..n]) by {
        forall i, j | 0 <= i < j < n ensures !SameFree(es[..n][i], es[..n][j]) {
          assert !SameFree(es[i], es[j]);
        }
      }
      ChainFreedOnce(es[..n]);
      if es[n].freeFn.Some? {
        FreesMembers(es[..n], (es[n].freeFn.value, es[n].customData));
        forall i | 0 <= i < n ensures !SameFree(es[..n][i], es[n]) {
          assert !SameFree(es[i], es[n]);
        }
      }
      forall i | 0 <= i < |es| && es[i].freeFn.Some? ensures (es[i].freeFn.value, es[i].customData) in Frees(es) {
        if i < n { assert es[..n][i] == es[i]; }
      }
    }
  }

  predicate Disjoint<T(==)>(a: seq<T>, b: seq<T>) {
    forall x | x in a :: x !in b
  }

  lemma NoRepeatsConcat<T>(a: seq<T>, b: seq<T>)
    ensures NoRepeats(a + b) <==> NoRepeats(a) && NoRepeats(b) && Disjoint(a, b)
  {
    var s := a + b;
    if NoRepeats(s) {
      forall i, j | 0 <= i < j < |a| ensures a[i] != a[j] { assert s[i] != s[j]; }
      forall i, j | 0 <= i < j < |b| ensures b[i] != b[j] { assert s[|a| + i] != s[|a| + j]; }
      forall x | x in a ensures x !in b {
        var i :| 0 <= i < |a| && a[i] == x;
        forall j | 0 <= j < |b| ensures b[j] != x { assert s[i] != s[|a| + j]; }
      }
    }
    if NoRepeats(a) && NoRepeats(b) && Disjoint(a, b) {
      forall i, j | 0 <= i < j < |s| ensures s[i] != s[j] {
        if i < |a| <= j { assert a[i] in a && b[j - |a|] in b; }
      }
    }
  }

  lemma DisjointSwap<T>(a: seq<T>, b: seq<T>)
    ensures Disjoint(a, b) <==> Disjoint(b, a)
  {}

  lemma PairsOfChains(t: Chains, apart: bool)
    requires
      var p, q, r, s := Frees(t.Get(Producer)), Frees(t.Get(Stream)), Frees(t.Get(Auth)), Frees(t.Get(Api));
      apart <==> Disjoint(p, q) && Disjoint(p, r) && Disjoint(p, s) && Disjoint(q, r) && Disjoint(q, s) && Disjoint(r, s)
    ensures apart <==> forall c: Chain, d: Chain | c != d :: Disjoint(Frees(t.Get(c)), Frees(t.Get(d)))
  {
    if apart {
      forall c: Chain, d: Chain | c != d ensures Disjoint(Frees(t.Get(c)), Frees(t.Get(d))) {
        DisjointSwap(Frees(t.Get(d)), Frees(t.Get(c)));
      }
    }
  }

  lemma DisjointConcat<T>(a: seq<T>, b: seq<T>, c: seq<T>)
    ensures Disjoint(a + b, c) <==> Disjoint(a, c) && Disjoint(b, c)
  {
    assert forall x :: x in a + b <==> x in a || x in b;
  }

  /** Apart from repeats within a list, nothing is freed twice exactly when the lists are disjoint. */
  lemma RepeatsAcross(platform: seq<Free>, t: Chains)
    requires NoRepeats(platform) && forall c: Chain :: NoRepeats(Frees(t.Get(c)))
    ensures NoRepeats(TeardownCalls(platform, t)) <==>
      && (forall c: Chain :: Disjoint(platform, Frees(t.Get(c))))
      && (forall c: Chain, d: Chain | c != d :: Disjoint(Frees(t.Get(c)), Frees(t.Get(d))))
  {
    var p, q, r, s := Frees(t.Get(Producer)), Frees(t.Get(Stream)), Frees(t.Get(Auth)), Frees(t.Get(Api));
    NoRepeatsConcat(platform, p);
    NoRepeatsConcat(platform + p, q);
    NoRepeatsConcat(platform + p + q, r);
    NoRepeatsConcat(platform + p + q + r, s);
    DisjointConcat(platform, p, q);
    DisjointConcat(platform, p, r);
    DisjointConcat(platform + p, q, r);
    DisjointConcat(platform, p, s);
    DisjointConcat(platform + p, q, s);
    DisjointConcat(platform + p + q, r, s);
    var apart := Disjoint(p, q) && Disjoint(p, r) && Disjoint(p, s) && Disjoint(q, r) && Disjoint(q, s) && Disjoint(r, s);
    PairsOfChains(t, apart);
    if Disjoint(platform, p) && Disjoint(platform, q) && Disjoint(platform, r) && Disjoint(platform, s) {
      forall c: Chain ensures Disjoint(platform, Frees(t.Get(c))) {
        match c case Producer => case Stream => case Auth => case Api =>
      }
    }
  }

  // ---- The same over what was registered ----

  /** The k-th request was accepted. */
  predicate AcceptedAt(p: Provider, requests: seq<Request>, k: nat)
    requires k < |requests|
  {
    AddStatus(AddAll(p, requests[..k]), requests[k].0, requests[k].1) == STATUS_SUCCESS
  }

  /** The k-th request was accepted for chain c with this free function and data. */
  predicate Registers(p: Provider, requests: seq<Request>, k: nat, c: Chain, f: Free)
    requires k < |requests|
  {
    && AcceptedAt(p, requests, k) && requests[k].0 == c
    && requests[k].1.value.freeFn == Some(f.0) && requests[k].1.value.customData == f.1
  }

  predicate EverRegisters(p: Provider, requests: seq<Request>, c: Chain, f: Free) {
    exists k | 0 <= k < |requests| :: Registers(p, requests, k, c, f)
  }

  lemma EverRegistersInit(p: Provider, requests: seq<Request>, c: Chain, f: Free)
    requires requests != []
    ensures
      var n := |requests| - 1;
      EverRegisters(p, requests, c, f) <==> EverRegisters(p, requests[..n], c, f) || Registers(p, requests, n, c, f)
  {
    var n := |requests| - 1;
    var init := requests[..n];
    forall k | 0 <= k < n ensures Registers(p, init, k, c, f) <==> Registers(p, requests, k, c, f) {
      assert init[..k] == requests[..k];
    }
  }

  lemma FreesSnoc(es: seq<Entry>, e: Entry, f: Free)
    ensures f in Frees(es + [e]) <==> f in Frees(es) || (e.freeFn == Some(f.0) && e.customData == f.1)
  {
    assert (es + [e])[..|es|] == es;
    if e.freeFn.Some? {
      assert f in [(e.freeFn.value, e.customData)] <==> f == (e.freeFn.value, e.customData);
    }
  }

  lemma {:induction false} FreedWasRegistered(p: Provider, requests: seq<Request>, c: Chain, f: Free)
    ensures f in Frees(AcceptedFor(p, requests, c)) <==> EverRegisters(p, requests, c, f)
  {
    if requests == [] {
    } else {
      var n := |requests| - 1;
      FreedWasRegistered(p, requests[..n], c, f);
      EverRegistersInit(p, requests, c, f);
      var es := AcceptedFor(p, requests[..n], c);
      if requests[n].0 == c && AcceptedAt(p, requests, n) {
        FreesSnoc(es, requests[n].1.value, f);
      } else {
        assert es + [] == es;
      }
    }
  }

  /** Two requests accepted for different chains share their free function and data. */
  predicate SharedAcross(p: Provider, requests: seq<Request>, i: nat, j: nat)
    requires i < |requests| && j < |requests|
  {
    && AcceptedAt(p, requests, i) && AcceptedAt(p, requests, j) && requests[i].0 != requests[j].0
    && SameFree(requests[i].1.value, requests[j].1.value)
  }

  /** An accepted request shares its free function and data with the platform's. */
  predicate SharedWithPlatform(p: Provider, requests: seq<Request>, platform: seq<Free>, i: nat)
    requires i < |requests|
  {
    && AcceptedAt(p, requests, i) && requests[i].1.value.freeFn.Some?
    && (requests[i].1.value.freeFn.value, requests[i].1.value.customData) in platform
  }

  /** What teardown frees for a chain is what was registered with it. */
  lemma RegisteredIn(limit: nat, requests: seq<Request>, c: Chain, f: Free)
    ensures f in Frees(AddAll(Empty(limit), requests).chains.Get(c)) <==>
            EverRegisters(Empty(limit), requests, c, f)
  {
    ChainHoldsItsRequests(limit, requests, c);
    FreedWasRegistered(Empty(limit), requests, c, f);
  }

  /** The free call that an accepted request leads to. */
  lemma RequestIsFreed(limit: nat, requests: seq<Request>, i: nat)
    requires i < |requests| && AcceptedAt(Empty(limit), requests, i) && requests[i].1.value.freeFn.Some?
    ensures
      var e := requests[i].1.value;
      (e.freeFn.value, e.customData) in Frees(AddAll(Empty(limit), requests).chains.Get(requests[i].0))
  {
    var c, e := requests[i].0, requests[i].1.value;
    assert Registers(Empty(limit), requests, i, c, (e.freeFn.value, e.customData));
    RegisteredIn(limit, requests, c, (e.freeFn.value, e.customData));
  }

  lemma FreedByTwo(limit: nat, requests: seq<Request>, c: Chain, d: Chain, f: Free)
    requires c != d
    requires f in Frees(AddAll(Empty(limit), requests).chains.Get(c))
    requires f in Frees(AddAll(Empty(limit), requests).chains.Get(d))
    ensures exists i, j | 0 <= i < |requests| && 0 <= j < |requests| :: SharedAcross(Empty(limit), requests, i, j)
  {
    RegisteredIn(limit, requests, c, f);
    RegisteredIn(limit, requests, d, f);
    var i :| 0 <= i < |requests| && Registers(Empty(limit), requests, i, c, f);
    var j :| 0 <= j < |requests| && Registers(Empty(limit), requests, j, d, f);
    assert SharedAcross(Empty(limit), requests, i, j);
  }

  lemma FreedByPlatform(limit: nat, requests: seq<Request>, platform: seq<Free>, c: Chain, f: Free)
    requires f in platform && f in Frees(AddAll(Empty(limit), requests).chains.Get(c))
    ensures exists i | 0 <= i < |requests| :: SharedWithPlatform(Empty(limit), requests, platform, i)
  {
    RegisteredIn(limit, requests, c, f);
    var i :| 0 <= i < |requests| && Registers(Empty(limit), requests, i, c, f);
    assert SharedWithPlatform(Empty(limit), requests, platform, i);
  }

  lemma DisjointIffNotShared(limit: nat, requests: seq<Request>)
    ensures
      var p := Empty(limit);
      var t := AddAll(p, requests).chains;
      (forall c: Chain, d: Chain | c != d :: Disjoint(Frees(t.Get(c)), Frees(t.Get(d)))) <==>
      (forall i, j | 0 <= i < |requests| && 0 <= j < |requests| :: !SharedAcross(p, requests, i, j))
  {
    var p := Empty(limit);
    var t := AddAll(p, requests).chains;
    forall c: Chain, d: Chain, f | c != d && f in Frees(t.Get(c)) && f in Frees(t.Get(d))
      ensures exists i, j | 0 <= i < |requests| && 0 <= j < |requests| :: SharedAcross(p, requests, i, j)
    {
      FreedByTwo(limit, requests, c, d, f);
    }
    forall i, j | 0 <= i < |requests| && 0 <= j < |requests| && SharedAcross(p, requests, i, j)
      ensures !Disjoint(Frees(t.Get(requests[i].0)), Frees(t.Get(requests[j].0)))
    {
      RequestIsFreed(limit, requests, i);
      RequestIsFreed(limit, requests, j);
    }
  }

  lemma PlatformIffNotShared(limit: nat, requests: seq<Request>, platform: seq<Free>)
    ensures
      var p := Empty(limit);
      var t := AddAll(p, requests).chains;
      (forall c: Chain :: Disjoint(platform, Frees(t.Get(c)))) <==>
      (forall i | 0 <= i < |requests| :: !SharedWithPlatform(p, requests, platform, i))
  {
    var p := Empty(limit);
    var t := AddAll(p, requests).chains;
    forall c: Chain, f | f in platform && f in Frees(t.Get(c))
      ensures exists i | 0 <= i < |requests| :: SharedWithPlatform(p, requests, platform, i)
    {
      FreedByPlatform(limit, requests, platform, c, f);
    }
    forall i | 0 <= i < |requests| && SharedWithPlatform(p, requests, platform, i)
      ensures !Disjoint(platform, Frees(t.Get(requests[i].0)))
    {
      RequestIsFreed(limit, requests, i);
    }
  }

  /** The guard looks at one chain only: after any history teardown frees nothing twice if and only if no
      two requests accepted for different chains, nor one of them and the platform, share free function
      and data. */
  lemma TeardownOnceExactly(limit: nat, requests: seq<Request>, platform: seq<Free>)
    requires |platform| <= 1
    ensures
      var p := Empty(limit);
      NoRepeats(TeardownCalls(platform, AddAll(p, requests).chains)) <==>
      && (forall i, j | 0 <= i < |requests| && 0 <= j < |requests| :: !SharedAcross(p, requests, i, j))
      && (forall i | 0 <= i < |requests| :: !SharedWithPlatform(p, requests, platform, i))
  {
    var p := Empty(limit);
    var t := AddAll(p, requests).chains;
    EveryHistoryWellFormed(limit, requests);
    forall c: Chain ensures NoRepeats(Frees(t.Get(c))) {
      ChainFreedOnce(t.Get(c));
    }
    RepeatsAcross(platform, t);
    DisjointIffNotShared(limit, requests);
    PlatformIffNotShared(limit, requests, platform);
  }

  /** The same pair registered with two chains is accepted by both and freed twice. */
  lemma SharedPairFreedTwice(fn: nat, data: nat)
    ensures
      var e := Some(Entry(0, data, Some(fn), map[]));
      TeardownCalls([], AddAll(Empty(1), [(Producer, e), (Stream, e)]).chains) == [(fn, data), (fn, data)]
  {
    var e := Entry(0, data, Some(fn), map[]);
    var p0 := Empty(1);
    var h1: seq<Request> := [(Producer, Some(e))];
    var h2: seq<Request> := [(Producer, Some(e)), (Stream, Some(e))];
    assert h1[..0] == [] && h2[..1] == h1;
    assert AddAll(p0, h1) == Add(p0, Producer, Some(e));
    var t := AddAll(p0, h2).chains;
    assert t.producer == [e] && t.stream == [e] && t.auth == [] && t.api == [];
    assert [e][..0] == [];
    assert Frees([e]) == [(fn, data)];
  }
}
