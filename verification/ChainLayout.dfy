/** Where the four chains lie in the one allocation, in bytes. */
module ChainLayout {
  import opened CallbackChains

  /** Sizes in bytes of the provider structure and of one entry of each chain. */
  datatype Sizes = Sizes(header: nat, producer: nat, stream: nat, auth: nat, api: nat)
  {
    function Of(c: Chain): nat {
      match c case Producer => producer case Stream => stream case Auth => auth case Api => api
    }

    function Allocation(n: nat): nat {
      header + n * (producer + stream + auth + api)
    }

    /** Where a chain starts: each pointer is the previous one advanced by n entries. */
    function Start(n: nat, c: Chain): nat {
      match c
      case Producer => header
      case Stream => header + n * producer
      case Auth => header + n * producer + n * stream
      case Api => header + n * producer + n * stream + n * auth
    }

    /** The bytes of entry i of a chain. */
    predicate Holds(n: nat, c: Chain, i: nat, b: nat) {
      Start(n, c) + i * Of(c) <= b < Start(n, c) + i * Of(c) + Of(c)
    }
  }

  /** Entry i of a run of n entries of z bytes ends within the run. */
  lemma {:induction false} EntryFits(z: nat, i: nat, n: nat)
    requires i < n
    ensures i * z + z <= n * z
    decreases n
  {
    assert n * z == (n - 1) * z + z;
    if i < n - 1 {
      EntryFits(z, i, n - 1);
    }
  }

  /** Every byte of a run of n entries lies in one of them. */
  lemma {:induction false} EntryOf(z: nat, n: nat, off: nat) returns (i: nat)
    requires off < n * z
    ensures i < n && i * z <= off < i * z + z
  {
    assert n * z == (n - 1) * z + z;
    if (n - 1) * z <= off {
      i := n - 1;
    } else {
      i := EntryOf(z, n - 1, off);
    }
  }

  /** The chains lie end to end and the last one ends where the allocation ends. */
  lemma ChainsEndToEnd(z: Sizes, n: nat)
    ensures z.Start(n, Producer) == z.header
    ensures z.Start(n, Stream) == z.Start(n, Producer) + n * z.producer
    ensures z.Start(n, Auth) == z.Start(n, Stream) + n * z.stream
    ensures z.Start(n, Api) == z.Start(n, Auth) + n * z.auth
    ensures z.Allocation(n) == z.Start(n, Api) + n * z.api
    ensures z.header <= z.Start(n, Stream) <= z.Start(n, Auth) <= z.Start(n, Api) <= z.Allocation(n)
  {}

  /** Which chain a byte belongs to. */
  function Owner(z: Sizes, n: nat, b: nat): Chain {
    if b < z.Start(n, Stream) then Producer else if b < z.Start(n, Auth) then Stream
    else if b < z.Start(n, Api) then Auth else Api
  }

  lemma HeldByOwner(z: Sizes, n: nat, c: Chain, i: nat, b: nat)
    requires i < n && z.Holds(n, c, i, b)
    ensures c == Owner(z, n, b) && z.header <= b < z.Allocation(n)
  {
    ChainsEndToEnd(z, n);
    EntryFits(z.Of(c), i, n);
  }

  /** Two different entries share no byte. */
  lemma EntriesDisjoint(z: Sizes, n: nat, c: Chain, i: nat, d: Chain, j: nat, b: nat)
    requires i < n && j < n && z.Holds(n, c, i, b) && z.Holds(n, d, j, b)
    ensures c == d && i == j
  {
    HeldByOwner(z, n, c, i, b);
    HeldByOwner(z, n, d, j, b);
    if i < j {
      EntryFits(z.Of(c), i, j);
    } else if j < i {
      EntryFits(z.Of(c), j, i);
    }
  }

  /** The entries cover the allocation behind the header and nothing else. */
  lemma EntriesTile(z: Sizes, n: nat, b: nat)
    ensures z.header <= b < z.Allocation(n) <==> exists c: Chain, i: nat | i < n :: z.Holds(n, c, i, b)
  {
    if z.header <= b < z.Allocation(n) {
      ChainsEndToEnd(z, n);
      var c := Owner(z, n, b);
      var i := EntryOf(z.Of(c), n, b - z.Start(n, c));
      assert z.Holds(n, c, i, b);
    }
    forall c: Chain, i: nat | i < n && z.Holds(n, c, i, b) ensures z.header <= b < z.Allocation(n) {
      HeldByOwner(z, n, c, i, b);
    }
  }
}
