/** Shared vocabulary of the hash tree (src/htree.rs): addresses, the
    `HashMap` sink and source, and a recursive reference walk of a tree held
    in a store, against which the writer and the reader are both proved. */
module HTree {
  import opened Wrappers
  import opened Bytes

  /** `ADDRESS_SZ` (src/address.rs, not part of this model) is the 32-byte
      generichash output size. */
  const ADDRESS_SZ: nat := 32
  const MINIMUM_ADDR_CHUNK_SIZE: nat := 2 * ADDRESS_SZ
  const SENSIBLE_ADDR_MAX_CHUNK_SIZE: nat := 30000 * ADDRESS_SZ

  type Address = a: bytes | |a| == ADDRESS_SZ witness Zeros(32)

  datatype HTreeError = CorruptOrTamperedDataError | DataMissing

  /** `tree_block_address`: the unkeyed generichash of a block, an uninterpreted function. */
  type BlockHash = bytes -> Address

  /** One `Sink::add_chunk(addr, data)` call. */
  datatype Write = Write(addr: Address, data: bytes)

  /** The bytes of a level buffer holding these addresses, in order. */
  function Flatten(addrs: seq<Address>): (b: bytes)
    ensures |b| == |addrs| * ADDRESS_SZ
  {
    if |addrs| == 0 then [] else addrs[0] + Flatten(addrs[1..])
  }

  lemma {:induction false} FlattenAppend(xs: seq<Address>, ys: seq<Address>)
    ensures Flatten(xs + ys) == Flatten(xs) + Flatten(ys)
  {
    if |xs| == 0 {
      assert xs + ys == ys;
    } else {
      assert (xs + ys)[0] == xs[0];
      assert (xs + ys)[1..] == xs[1..] + ys;
      FlattenAppend(xs[1..], ys);
    }
  }

  lemma {:induction false} FlattenOne(a: Address)
    ensures Flatten([a]) == a
  {
    assert [a][1..] == [];
  }

  // ---------------------------------------------------------------------
  // The HashMap sink and source

  /** The `HashMap<Address, Vec<u8>>` after the given `add_chunk` calls: each
      call inserts, replacing an earlier value under the same address. */
  function Store(log: seq<Write>): map<Address, bytes>
  {
    if |log| == 0 then map[] else Store(log[..|log| - 1])[log[|log| - 1].addr := log[|log| - 1].data]
  }

  /** `Source::get_chunk` on the `HashMap`. */
  function GetChunk(store: map<Address, bytes>, addr: Address): (r: Result<bytes, HTreeError>)
    ensures r.Ok? <==> addr in store
    ensures r.Ok? ==> r.value == store[addr]
    ensures r.Err? ==> r.error == DataMissing
  {
    if addr in store then Ok(store[addr]) else Err(DataMissing)
  }

  /** Content addressing: one address is never written with two different contents. */
  predicate NoCollision(log: seq<Write>)
  {
    forall i, j :: 0 <= i < |log| && 0 <= j < |log| && log[i].addr == log[j].addr ==> log[i].data == log[j].data
  }

  /** The store holds a write's data under its address. */
  predicate Holds(store: map<Address, bytes>, w: Write)
  {
    w.addr in store && store[w.addr] == w.data
  }

  /** Exactly the written addresses are stored. */
  lemma {:induction false} StoreKeys(log: seq<Write>)
    ensures forall a :: a in Store(log) <==> exists i :: 0 <= i < |log| && log[i].addr == a
  {
    if |log| > 0 {
      var init := log[..|log| - 1];
      StoreKeys(init);
      assert forall i :: 0 <= i < |init| ==> init[i] == log[i];
    }
  }

  /** Writes to pairwise distinct addresses make as many entries. */
  lemma {:induction false} StoreSize(log: seq<Write>)
    requires forall i, j :: 0 <= i < j < |log| ==> log[i].addr != log[j].addr
    ensures |Store(log).Keys| == |log|
  {
    if |log| > 0 {
      var init := log[..|log| - 1];
      var last := log[|log| - 1];
      assert forall i :: 0 <= i < |init| ==> init[i] == log[i];
      StoreSize(init);
      StoreKeys(init);
      assert last.addr !in Store(init);
      assert Store(log).Keys == Store(init).Keys + {last.addr};
    }
  }

  /** Without collisions every write can be read back. */
  lemma {:induction false} StoreHoldsAll(log: seq<Write>)
    requires NoCollision(log)
    ensures forall i :: 0 <= i < |log| ==> Holds(Store(log), log[i])
  {
    if |log| > 0 {
      var init := log[..|log| - 1];
      assert forall i :: 0 <= i < |init| ==> init[i] == log[i];
      assert NoCollision(init);
      StoreHoldsAll(init);
    }
  }

  // ---------------------------------------------------------------------
  // Reference walk

  /** One address reported by a tree walk, with the height it was found at. */
  datatype Visit = Visit(height: nat, addr: Address)

  type Walked = Result<seq<Visit>, HTreeError>

  /** Sequencing of two walks: the first error wins, otherwise the visits concatenate. */
  function Then(x: Walked, y: Walked): Walked
  {
    match x
    case Err(e) => Err(e)
    case Ok(u) => (match y case Err(e) => Err(e) case Ok(v) => Ok(u + v))
  }

  function Prepend(v: Visit, x: Walked): Walked
  {
    match x
    case Err(e) => Err(e)
    case Ok(u) => Ok([v] + u)
  }

  lemma {:induction false} ThenAssoc(x: Walked, y: Walked, z: Walked)
    ensures Then(Then(x, y), z) == Then(x, Then(y, z))
  {
    if x.Ok? && y.Ok? && z.Ok? {
      assert (x.value + y.value) + z.value == x.value + (y.value + z.value);
    }
  }

  lemma {:induction false} ThenUnit(x: Walked)
    ensures Then(Ok([]), x) == x && Then(x, Ok([])) == x
  {
    if x.Ok? {
      assert [] + x.value == x.value && x.value + [] == x.value;
    }
  }

  lemma {:induction false} PrependThen(v: Visit, x: Walked, y: Walked)
    ensures Prepend(v, Then(x, y)) == Then(Prepend(v, x), y)
  {
    if x.Ok? && y.Ok? {
      assert [v] + (x.value + y.value) == ([v] + x.value) + y.value;
    }
  }

  /** Visiting the node `a` at height `h`: the address itself, then, above the
      leaves, the addresses of its block one level down, depth first. */
  function WalkNode(store: map<Address, bytes>, h: nat, a: Address): Walked
    decreases h, 0
  {
    if h == 0 then Ok([Visit(0, a)])
    else if a !in store then Err(DataMissing)
    else Prepend(Visit(h, a), WalkBytes(store, h - 1, store[a]))
  }

  /** Visiting the addresses of a block, in order; trailing bytes that do not
      make a whole address are corrupt. */
  function WalkBytes(store: map<Address, bytes>, h: nat, bs: bytes): Walked
    decreases h, |bs|
  {
    if |bs| == 0 then Ok([])
    else if |bs| < ADDRESS_SZ then Err(CorruptOrTamperedDataError)
    else Then(WalkNode(store, h, bs[..ADDRESS_SZ]), WalkBytes(store, h, bs[ADDRESS_SZ..]))
  }

  lemma {:induction false} WalkFlattenAppend(store: map<Address, bytes>, h: nat, xs: seq<Address>, ys: seq<Address>)
    ensures WalkBytes(store, h, Flatten(xs + ys)) == Then(WalkBytes(store, h, Flatten(xs)), WalkBytes(store, h, Flatten(ys)))
  {
    FlattenAppend(xs, ys);
    if |xs| == 0 {
      assert Flatten(xs + ys) == Flatten(ys);
      ThenUnit(WalkBytes(store, h, Flatten(ys)));
    } else {
      var rest: bytes := Flatten(xs[1..]) + Flatten(ys);
      var head: bytes := xs[0];
      assert Flatten(xs + ys) == head + rest;
      assert (head + rest)[..ADDRESS_SZ] == xs[0];
      assert (head + rest)[ADDRESS_SZ..] == rest;
      FlattenAppend(xs[1..], ys);
      WalkFlattenAppend(store, h, xs[1..], ys);
      assert xs[1..] + ys == (xs + ys)[1..];
      ThenAssoc(WalkNode(store, h, xs[0]), WalkBytes(store, h, Flatten(xs[1..])), WalkBytes(store, h, Flatten(ys)));
    }
  }

  lemma {:induction false} WalkOne(store: map<Address, bytes>, h: nat, a: Address)
    ensures WalkBytes(store, h, a) == WalkNode(store, h, a)
  {
    assert a[..ADDRESS_SZ] == a;
    assert |a[ADDRESS_SZ..]| == 0;
    ThenUnit(WalkNode(store, h, a));
  }

  /** The addresses a walk found at height 0, in order. */
  function Leaves(vs: seq<Visit>): seq<Address>
  {
    if |vs| == 0 then [] else (if vs[0].height == 0 then [vs[0].addr] else []) + Leaves(vs[1..])
  }

  lemma {:induction false} LeavesAppend(u: seq<Visit>, v: seq<Visit>)
    ensures Leaves(u + v) == Leaves(u) + Leaves(v)
  {
    if |u| == 0 {
      assert u + v == v;
    } else {
      assert (u + v)[0] == u[0];
      assert (u + v)[1..] == u[1..] + v;
      LeavesAppend(u[1..], v);
    }
  }

  /** The leaves of a walk, or `None` if it failed. */
  function LeavesOf(x: Walked): Option<seq<Address>>
  {
    match x
    case Err(_) => None
    case Ok(v) => Some(Leaves(v))
  }

  function OptCat(x: Option<seq<Address>>, y: Option<seq<Address>>): Option<seq<Address>>
  {
    if x.Some? && y.Some? then Some(x.value + y.value) else None
  }

  lemma {:induction false} LeavesOfThen(x: Walked, y: Walked)
    ensures LeavesOf(Then(x, y)) == OptCat(LeavesOf(x), LeavesOf(y))
  {
    if x.Ok? && y.Ok? {
      LeavesAppend(x.value, y.value);
    }
  }

  lemma {:induction false} LeavesOfPrepend(v: Visit, x: Walked)
    requires v.height > 0
    ensures LeavesOf(Prepend(v, x)) == LeavesOf(x)
  {
    if x.Ok? {
      assert ([v] + x.value)[0] == v;
      assert ([v] + x.value)[1..] == x.value;
      assert Leaves([v] + x.value) == [] + Leaves(x.value);
      assert Prepend(v, x) == Ok([v] + x.value);
      assert [] + Leaves(x.value) == Leaves(x.value);
    }
  }

  // ---------------------------------------------------------------------
  // Size of the work left in a walk, used to show the reader's walk ends.

  function SizeNode(store: map<Address, bytes>, h: nat, a: Address): nat
    decreases h, 0
  {
    1 + (if h > 0 && a in store then SizeBytes(store, h - 1, store[a]) else 0)
  }

  function SizeBytes(store: map<Address, bytes>, h: nat, bs: bytes): nat
    decreases h, |bs|
  {
    if |bs| < ADDRESS_SZ then 0
    else SizeNode(store, h, bs[..ADDRESS_SZ]) + SizeBytes(store, h, bs[ADDRESS_SZ..])
  }
}
