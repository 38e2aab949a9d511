/** Exactly when the cache of the buffer pool is invisible to its clients: a recycled block must be the
    block that fresh allocation would have given, and keys that lose high bits can prevent that. */
module Recycling {
  import opened Bits
  import opened BlockLayout
  import opened BufferPool

  /** The buffer has the capacity, alignment, body offset and empty data window that fresh allocation
      at its address gives, and the address is aligned. */
  predicate AsFresh(lay: Sizing, r: Request, b: Buffer) {
    && lay(r).Some?
    && b == FreshBuffer(lay(r).value, r.bit, b.block.id, b.block.base)
    && b.block.base % Pow2(r.bit) == 0
  }

  predicate AllAsFresh(lay: Sizing, ops: seq<Op>) {
    forall k :: 0 <= k < |ops| && ops[k].Malloc? ==> AsFresh(lay, ops[k].r, ops[k].b)
  }

  /** Blocks are looked up under the key they will answer, which tells alignments apart. */
  ghost predicate KeysMatch(lay: Sizing) {
    forall r :: lay(r).Some? ==> r.bit < 256 && lay(r).value.key == Key(lay(r).value.total, r.bit)
  }

  /** Two requests for blocks of different lengths that share a key. */
  predicate Clash(lay: Sizing, r1: Request, r2: Request) {
    && lay(r1).Some? && lay(r2).Some?
    && lay(r1).value.key == lay(r2).value.key && lay(r1).value.total != lay(r2).value.total
  }

  // ------------------------------------------------------------------ which blocks reach the cache

  predicate Reaches(lay: Sizing, q: Request, limit: nat) {
    lay(q).Some? && lay(q).value.total >= limit
  }

  /** A block made for `r` can reach the cache in some run of requests from `menu`: as written, some
      block must reach the limit first; as intended, the block itself must stay within it. */
  ghost predicate CanCache(lay: Sizing, p: Policy, limit: nat, menu: iset<Request>, r: Request) {
    match p
    case AsWritten => exists q :: q in menu && Reaches(lay, q, limit)
    case AsIntended => lay(r).Some? && lay(r).value.total <= limit
  }

  ghost predicate Hazard(lay: Sizing, p: Policy, limit: nat, menu: iset<Request>, r1: Request, r2: Request) {
    r1 in menu && r2 in menu && Clash(lay, r1, r2) && CanCache(lay, p, limit, menu, r1)
  }

  ghost predicate NoHazard(lay: Sizing, p: Policy, limit: nat, menu: iset<Request>) {
    forall r1, r2 :: !Hazard(lay, p, limit, menu, r1, r2)
  }

  ghost predicate Uses(ops: seq<Op>, menu: iset<Request>) {
    forall i :: 0 <= i < |ops| && ops[i].Malloc? ==> ops[i].r in menu
  }

  predicate MadeFor(lay: Sizing, d: Block, r: Request) {
    lay(r).Some? && d.len == lay(r).value.total && d.bit == r.bit && d.base % Pow2(d.bit) == 0
  }

  ghost predicate Held(lay: Sizing, menu: iset<Request>, d: Block) {
    exists r :: r in menu && MadeFor(lay, d, r)
  }

  ghost predicate Kept(lay: Sizing, p: Policy, limit: nat, menu: iset<Request>, d: Block) {
    exists r :: r in menu && MadeFor(lay, d, r) && CanCache(lay, p, limit, menu, r)
  }

  /** Every block was made for a request of the menu; every cached one could reach the cache. */
  ghost predicate Traced(lay: Sizing, p: Policy, limit: nat, menu: iset<Request>, s: PoolState) {
    && (forall i :: 0 <= i < |s.cache| ==> Kept(lay, p, limit, menu, s.cache[i].block))
    && (forall id :: id in s.live ==> Held(lay, menu, s.live[id]))
  }

  // ------------------------------------------------------------------ where blocks come from

  lemma HitIsFresh(lay: Sizing, p: Policy, limit: nat, menu: iset<Request>, r: Request, d: Block)
    requires KeysMatch(lay) && NoHazard(lay, p, limit, menu)
    requires Kept(lay, p, limit, menu, d) && r in menu && lay(r).Some? && lay(r).value.key == Key(d.len, d.bit)
    ensures AsFresh(lay, r, Buffer(d, U16(lay(r).value.header), 0, 0))
  {
    var q :| q in menu && MadeFor(lay, d, q) && CanCache(lay, p, limit, menu, q);
    assert lay(q).value.key == Key(d.len, d.bit);
    assert !Hazard(lay, p, limit, menu, q, r);
    KeyFields(lay(q).value.total, q.bit);
    KeyFields(lay(r).value.total, r.bit);
  }

  lemma MallocTraced(lay: Sizing, p: Policy, limit: nat, menu: iset<Request>,
                     s: PoolState, r: Request, s': PoolState, b: Buffer)
    requires Traced(lay, p, limit, menu, s) && r in menu && lay(r).Some?
    requires MallocStep(s, lay(r).value, r.bit, s', b)
    ensures Traced(lay, p, limit, menu, s')
  {
    if Cached(s, lay(r).value.key) {
      var i: nat :| HitAt(s, lay(r).value, s', b, i);
      assert Kept(lay, p, limit, menu, s.cache[i].block);
    } else {
      assert MadeFor(lay, b.block, r);
    }
    assert Held(lay, menu, b.block);
  }

  lemma MallocIsFresh(lay: Sizing, p: Policy, limit: nat, menu: iset<Request>,
                      s: PoolState, r: Request, s': PoolState, b: Buffer)
    requires KeysMatch(lay) && NoHazard(lay, p, limit, menu)
    requires Inv(s) && Traced(lay, p, limit, menu, s) && r in menu && lay(r).Some?
    requires MallocStep(s, lay(r).value, r.bit, s', b)
    ensures AsFresh(lay, r, b)
  {
    if Cached(s, lay(r).value.key) {
      var i: nat :| HitAt(s, lay(r).value, s', b, i);
      assert Filed(s.cache[i]);
      HitIsFresh(lay, p, limit, menu, r, s.cache[i].block);
    }
  }

  /** The request `q` whose block answers `r`: `r` itself, or one that shares its key and whose block
      can reach the cache. */
  ghost predicate AnsweredBy(lay: Sizing, p: Policy, limit: nat, menu: iset<Request>,
                             r: Request, b: Buffer, q: Request) {
    && lay(r).Some? && lay(q).Some?
    && b.headerLen == U16(lay(r).value.header) && b.block.len == lay(q).value.total
    && (q == r || (q in menu && lay(q).value.key == lay(r).value.key && CanCache(lay, p, limit, menu, q)))
  }

  /** Whatever happened before, a block was made for the request it answers, or was recycled. */
  lemma MallocSource(lay: Sizing, p: Policy, limit: nat, menu: iset<Request>,
                     s: PoolState, r: Request, s': PoolState, b: Buffer)
    requires KeysMatch(lay) && Inv(s) && Traced(lay, p, limit, menu, s) && lay(r).Some?
    requires MallocStep(s, lay(r).value, r.bit, s', b)
    ensures exists q :: AnsweredBy(lay, p, limit, menu, r, b, q)
  {
    if Cached(s, lay(r).value.key) {
      var i: nat :| HitAt(s, lay(r).value, s', b, i);
      var d := s.cache[i].block;
      assert Kept(lay, p, limit, menu, d) && Filed(s.cache[i]);
      var q :| q in menu && MadeFor(lay, d, q) && CanCache(lay, p, limit, menu, q);
      assert AnsweredBy(lay, p, limit, menu, r, b, q);
    } else {
      assert AnsweredBy(lay, p, limit, menu, r, b, r);
    }
  }

  lemma DroppedIsKept(lay: Sizing, p: Policy, limit: nat, menu: iset<Request>, d: Block)
    requires Held(lay, menu, d)
    requires p.AsIntended? ==> d.len <= limit
    requires p.AsWritten? ==> d.len >= limit || exists e :: Kept(lay, p, limit, menu, e)
    ensures Kept(lay, p, limit, menu, d)
  {
    var r :| r in menu && MadeFor(lay, d, r);
    if p.AsWritten? && d.len >= limit {
      assert Reaches(lay, r, limit);
    }
    assert CanCache(lay, p, limit, menu, r);
  }

  lemma ReleaseTraced(lay: Sizing, p: Policy, limit: nat, menu: iset<Request>, s: PoolState, id: nat)
    requires Inv(s) && s.limit == limit && Traced(lay, p, limit, menu, s) && id in s.live
    ensures Traced(lay, p, limit, menu, Release(p, s, id))
  {
    if !Frees(p, s, s.live[id].len) {
      assert p.AsWritten? && s.cache != [] ==> Kept(lay, p, limit, menu, s.cache[0].block);
      DroppedIsKept(lay, p, limit, menu, s.live[id]);
    }
  }

  lemma {:induction false} RunTraced(lay: Sizing, p: Policy, limit: nat, menu: iset<Request>,
                                     states: seq<PoolState>, ops: seq<Op>)
    requires IsRun(lay, p, limit, states, ops) && Uses(ops, menu)
    ensures Traced(lay, p, limit, menu, states[|ops|])
    decreases |ops|
  {
    if ops != [] {
      var n := |ops| - 1;
      RunTraced(lay, p, limit, menu, states[..n + 1], ops[..n]);
      RunInv(lay, p, limit, states[..n + 1], ops[..n]);
      assert Step(lay, p, states[n], ops[n], states[n + 1]);
      if ops[n].Malloc? {
        MallocTraced(lay, p, limit, menu, states[n], ops[n].r, states[n + 1], ops[n].b);
      } else {
        ReleaseTraced(lay, p, limit, menu, states[n], ops[n].id);
      }
    }
  }

  lemma RunIsFresh(lay: Sizing, p: Policy, limit: nat, menu: iset<Request>, states: seq<PoolState>, ops: seq<Op>)
    requires KeysMatch(lay) && NoHazard(lay, p, limit, menu)
    requires IsRun(lay, p, limit, states, ops) && Uses(ops, menu)
    ensures AllAsFresh(lay, ops)
  {
    forall k | 0 <= k < |ops| && ops[k].Malloc?
      ensures AsFresh(lay, ops[k].r, ops[k].b)
    {
      RunTraced(lay, p, limit, menu, states[..k + 1], ops[..k]);
      RunInv(lay, p, limit, states[..k + 1], ops[..k]);
      assert Step(lay, p, states[k], ops[k], states[k + 1]);
      MallocIsFresh(lay, p, limit, menu, states[k], ops[k].r, states[k + 1], ops[k].b);
    }
  }

  // ------------------------------------------------------------------ with a hazard

  /** The operations `ops` can lead to the state `s`. */
  ghost predicate RunTo(lay: Sizing, p: Policy, limit: nat, ops: seq<Op>, s: PoolState) {
    exists states :: IsRun(lay, p, limit, states, ops) && states[|ops|] == s
  }

  lemma RunToStart(lay: Sizing, p: Policy, limit: nat)
    ensures RunTo(lay, p, limit, [], Empty(limit))
  {
    assert IsRun(lay, p, limit, [Empty(limit)], []);
  }

  lemma RunToStep(lay: Sizing, p: Policy, limit: nat, ops: seq<Op>, s: PoolState, op: Op, s': PoolState)
    requires RunTo(lay, p, limit, ops, s) && Step(lay, p, s, op, s')
    ensures RunTo(lay, p, limit, ops + [op], s')
  {
    var states :| IsRun(lay, p, limit, states, ops) && states[|ops|] == s;
    assert IsRun(lay, p, limit, states + [s'], ops + [op]);
    assert (states + [s'])[|ops + [op]|] == s';
  }

  function Taken(d: Block, l: Layout): Buffer {
    Buffer(d, U16(l.header), 0, 0)
  }

  /** A fresh block at address 0. */
  function Made(l: Layout, bit: nat, id: nat): Block {
    Block(id, 0, l.total, bit)
  }

  function Entered(d: Block): Entry {
    Entry(Key(d.len, d.bit), d)
  }

  /** Take a block for `r1`, drop it, and ask for `r2`: the answer is block `d`, made for `r1`. */
  function ShortMishap(r1: Request, l1: Layout, r2: Request, l2: Layout, d: Block): seq<Op> {
    [Malloc(r1, Taken(d, l1))] + [Drop(0)] + [Malloc(r2, Taken(d, l2))]
  }

  /** As intended: a block within the limit is kept as soon as it is dropped. */
  lemma IntendedMishap(lay: Sizing, limit: nat, r1: Request, r2: Request)
    requires KeysMatch(lay) && Clash(lay, r1, r2) && lay(r1).value.total <= limit && r1.bit == r2.bit
    ensures var l1, l2 := lay(r1).value, lay(r2).value; var d := Made(l1, r1.bit, 0);
            exists s :: RunTo(lay, AsIntended, limit, ShortMishap(r1, l1, r2, l2, d), s)
  {
    var l1, l2 := lay(r1).value, lay(r2).value;
    var d := Made(l1, r1.bit, 0);
    var ops1 := [Malloc(r1, Taken(d, l1))];
    var s1 := PoolState(limit, 0, [], map[0 := d], [], 1);
    TakesOne(lay, AsIntended, limit, r1);
    var s2 := PoolState(limit, d.len, [Entered(d)], map[], [], 1);
    assert s1.live - {0} == map[];
    RunToStep(lay, AsIntended, limit, ops1, s1, Drop(0), s2);
    assert s2.cache[0].key == l2.key;
    assert HitAt(s2, l2, s1, Taken(d, l2), 0);
    RunToStep(lay, AsIntended, limit, ops1 + [Drop(0)], s2, Malloc(r2, Taken(d, l2)), s1);
    assert RunTo(lay, AsIntended, limit, ShortMishap(r1, l1, r2, l2, d), s1);
  }

  lemma TakesOne(lay: Sizing, p: Policy, limit: nat, r: Request)
    requires lay(r).Some?
    ensures var d := Made(lay(r).value, r.bit, 0);
            RunTo(lay, p, limit, [Malloc(r, Taken(d, lay(r).value))], PoolState(limit, 0, [], map[0 := d], [], 1))
  {
    var l := lay(r).value;
    var d := Made(l, r.bit, 0);
    var s1 := PoolState(limit, 0, [], map[0 := d], [], 1);
    RunToStart(lay, p, limit);
    assert Miss(Empty(limit), l, r.bit, s1, Taken(d, l));
    RunToStep(lay, p, limit, [], Empty(limit), Malloc(r, Taken(d, l)), s1);
    assert [] + [Malloc(r, Taken(d, l))] == [Malloc(r, Taken(d, l))];
  }

  /** Take blocks for `q` and `r1`, drop both, and ask for `r2`: the answer is block `d1`, made for `r1`. */
  function LongMishap(q: Request, l0: Layout, r1: Request, l1: Layout, r2: Request, l2: Layout,
                      d0: Block, d1: Block): seq<Op>
  {
    TakeTwo(q, l0, r1, l1, d0, d1) + [Drop(0)] + [Drop(1)] + [Malloc(r2, Taken(d1, l2))]
  }

  function TakeTwo(q: Request, l0: Layout, r1: Request, l1: Layout, d0: Block, d1: Block): seq<Op> {
    [Malloc(q, Taken(d0, l0))] + [Malloc(r1, Taken(d1, l1))]
  }

  function TwoLive(limit: nat, d0: Block, d1: Block): PoolState {
    PoolState(limit, 0, [], map[0 := d0, 1 := d1], [], 2)
  }

  lemma TakesTwo(lay: Sizing, p: Policy, limit: nat, q: Request, r1: Request)
    requires lay(q).Some? && lay(r1).Some?
    ensures var l0, l1 := lay(q).value, lay(r1).value; var d0, d1 := Made(l0, q.bit, 0), Made(l1, r1.bit, 1);
            RunTo(lay, p, limit, TakeTwo(q, l0, r1, l1, d0, d1), TwoLive(limit, d0, d1))
  {
    var l0, l1 := lay(q).value, lay(r1).value;
    var d0, d1 := Made(l0, q.bit, 0), Made(l1, r1.bit, 1);
    var s1 := PoolState(limit, 0, [], map[0 := d0], [], 1);
    TakesOne(lay, p, limit, q);
    assert Miss(s1, l1, r1.bit, TwoLive(limit, d0, d1), Taken(d1, l1));
    RunToStep(lay, p, limit, [Malloc(q, Taken(d0, l0))], s1, Malloc(r1, Taken(d1, l1)), TwoLive(limit, d0, d1));
  }

  /** As written: with one block that reaches the limit in the cache, everything dropped is kept. */
  lemma WrittenMishap(lay: Sizing, limit: nat, q: Request, r1: Request, r2: Request)
    requires KeysMatch(lay) && Clash(lay, r1, r2) && Reaches(lay, q, limit) && r1.bit == r2.bit
    ensures var l0, l1, l2 := lay(q).value, lay(r1).value, lay(r2).value;
            var d0, d1 := Made(l0, q.bit, 0), Made(l1, r1.bit, 1);
            exists s :: RunTo(lay, AsWritten, limit, LongMishap(q, l0, r1, l1, r2, l2, d0, d1), s)
  {
    var l0, l1, l2 := lay(q).value, lay(r1).value, lay(r2).value;
    var d0, d1 := Made(l0, q.bit, 0), Made(l1, r1.bit, 1);
    TakesTwo(lay, AsWritten, limit, q, r1);
    var ops2, s2 := TakeTwo(q, l0, r1, l1, d0, d1), TwoLive(limit, d0, d1);
    var s3 := PoolState(limit, d0.len, [Entered(d0)], map[1 := d1], [], 2);
    assert s2.live - {0} == map[1 := d1];
    RunToStep(lay, AsWritten, limit, ops2, s2, Drop(0), s3);
    var s4 := PoolState(limit, d0.len + d1.len, [Entered(d0), Entered(d1)], map[], [], 2);
    assert s3.live - {1} == map[];
    RunToStep(lay, AsWritten, limit, ops2 + [Drop(0)], s3, Drop(1), s4);
    var s5 := s3;
    assert s4.live[1 := d1] == s5.live;
    assert s4.cache[1].key == l2.key;
    assert RemoveAt(s4.cache, 1) == [Entered(d0)];
    assert HitAt(s4, l2, s5, Taken(d1, l2), 1);
    RunToStep(lay, AsWritten, limit, ops2 + [Drop(0)] + [Drop(1)], s4, Malloc(r2, Taken(d1, l2)), s5);
    assert RunTo(lay, AsWritten, limit, LongMishap(q, l0, r1, l1, r2, l2, d0, d1), s5);
  }

  // ------------------------------------------------------------------ exactly when

  /** Whatever clients ask for from `menu`, in whatever order, they cannot tell the cache is there. */
  ghost predicate Transparent(lay: Sizing, p: Policy, limit: nat, menu: iset<Request>) {
    forall states, ops :: IsRun(lay, p, limit, states, ops) && Uses(ops, menu) ==> AllAsFresh(lay, ops)
  }

  lemma ClashSameBit(lay: Sizing, r1: Request, r2: Request)
    requires KeysMatch(lay) && Clash(lay, r1, r2)
    ensures r1.bit == r2.bit
  {
    KeyFields(lay(r1).value.total, r1.bit);
    KeyFields(lay(r2).value.total, r2.bit);
  }

  lemma Exposes(lay: Sizing, p: Policy, limit: nat, menu: iset<Request>, ops: seq<Op>, s: PoolState, k: nat)
    requires RunTo(lay, p, limit, ops, s) && Uses(ops, menu)
    requires k < |ops| && ops[k].Malloc? && lay(ops[k].r).Some? && ops[k].b.block.len != lay(ops[k].r).value.total
    ensures !Transparent(lay, p, limit, menu)
  {
    var states :| IsRun(lay, p, limit, states, ops) && states[|ops|] == s;
    assert !AsFresh(lay, ops[k].r, ops[k].b);
  }

  lemma HazardShows(lay: Sizing, p: Policy, limit: nat, menu: iset<Request>, r1: Request, r2: Request)
    requires KeysMatch(lay) && Hazard(lay, p, limit, menu, r1, r2)
    ensures !Transparent(lay, p, limit, menu)
  {
    ClashSameBit(lay, r1, r2);
    var l1, l2 := lay(r1).value, lay(r2).value;
    if p.AsIntended? {
      IntendedMishap(lay, limit, r1, r2);
      var ops := ShortMishap(r1, l1, r2, l2, Made(l1, r1.bit, 0));
      var s :| RunTo(lay, p, limit, ops, s);
      Exposes(lay, p, limit, menu, ops, s, 2);
    } else {
      var q :| q in menu && Reaches(lay, q, limit);
      WrittenMishap(lay, limit, q, r1, r2);
      var l0 := lay(q).value;
      var ops := LongMishap(q, l0, r1, l1, r2, l2, Made(l0, q.bit, 0), Made(l1, r1.bit, 1));
      var s :| RunTo(lay, p, limit, ops, s);
      Exposes(lay, p, limit, menu, ops, s, 4);
    }
  }

  /** Main result, for any way to compute lengths and keys: the cache is invisible to every run of
      requests from `menu` exactly when no block that can reach the cache shares its key with a request
      of the menu for another length. */
  lemma TransparentIff(lay: Sizing, p: Policy, limit: nat, menu: iset<Request>)
    requires KeysMatch(lay)
    ensures Transparent(lay, p, limit, menu) <==> NoHazard(lay, p, limit, menu)
  {
    if r1, r2 :| Hazard(lay, p, limit, menu, r1, r2) {
      HazardShows(lay, p, limit, menu, r1, r2);
    } else {
      forall states, ops | IsRun(lay, p, limit, states, ops) && Uses(ops, menu)
        ensures AllAsFresh(lay, ops)
      {
        RunIsFresh(lay, p, limit, menu, states, ops);
      }
    }
  }

  // ------------------------------------------------------------------ the pool's own lengths and keys

  /** Same alignment, and totals that differ and agree modulo 2^(24 + align_bit). */
  predicate Collide(r1: Request, r2: Request) {
    && IsRequest(r1) && IsRequest(r2) && r1.bit == r2.bit
    && LayoutOf(r1).total != LayoutOf(r2).total
    && LayoutOf(r1).total % Pow2(24 + r1.bit) == LayoutOf(r2).total % Pow2(24 + r1.bit)
  }

  lemma PoolKeysMatch()
    ensures KeysMatch(PoolSizing)
  {
  }

  /** In the pool, two requests share a key for different lengths exactly when they collide. */
  lemma ClashIff(r1: Request, r2: Request)
    ensures Clash(PoolSizing, r1, r2) <==> Collide(r1, r2)
  {
    if IsRequest(r1) && IsRequest(r2) {
      TotalIsAligned(r1);
      TotalIsAligned(r2);
      KeysAgreeIff(LayoutOf(r1).total, r1.bit, LayoutOf(r2).total, r2.bit);
    }
  }

  predicate Asked(ops: seq<Op>, r: Request) {
    exists i :: 0 <= i < |ops| && ops[i].Malloc? && ops[i].r == r
  }

  /** Over any run of the pool in which no two requests collide, every `malloc`, cached or not, returns
      what fresh allocation at that address gives. */
  lemma PoolIsTransparent(p: Policy, limit: nat, states: seq<PoolState>, ops: seq<Op>)
    requires IsRun(PoolSizing, p, limit, states, ops)
    requires forall r1, r2 :: Asked(ops, r1) && Asked(ops, r2) ==> !Collide(r1, r2)
    ensures AllAsFresh(PoolSizing, ops)
  {
    var menu := iset r | Asked(ops, r);
    forall r1, r2
      ensures !Hazard(PoolSizing, p, limit, menu, r1, r2)
    {
      ClashIff(r1, r2);
    }
    PoolKeysMatch();
    RunIsFresh(PoolSizing, p, limit, menu, states, ops);
  }

  /** The same as an exact condition on what clients may ask for: no two requests collide, or the blocks
      of those that do never reach the cache. */
  lemma PoolTransparentIff(p: Policy, limit: nat, menu: iset<Request>)
    ensures Transparent(PoolSizing, p, limit, menu) <==>
              forall r1, r2 :: r1 in menu && r2 in menu && Collide(r1, r2) ==> !CanCache(PoolSizing, p, limit, menu, r1)
  {
    PoolKeysMatch();
    TransparentIff(PoolSizing, p, limit, menu);
    forall r1, r2
      ensures Hazard(PoolSizing, p, limit, menu, r1, r2) <==>
                r1 in menu && r2 in menu && Collide(r1, r2) && CanCache(PoolSizing, p, limit, menu, r1)
    {
      ClashIff(r1, r2);
    }
  }

  /** Any two requests that collide are told apart from fresh allocation, as the code is written, by a
      run of five calls, provided some block `q` reaches the limit. */
  lemma CollisionShows(limit: nat, q: Request, r1: Request, r2: Request)
    requires Collide(r1, r2) && Reaches(PoolSizing, q, limit)
    ensures !Transparent(PoolSizing, AsWritten, limit, iset{q, r1, r2})
  {
    ClashIff(r1, r2);
    PoolKeysMatch();
    HazardShows(PoolSizing, AsWritten, limit, iset{q, r1, r2}, r1, r2);
  }

  /** With the real limit of 32 MiB, a client that asks for 1 GiB + 1 KiB can be handed 1 KiB. */
  lemma ShortBlock(small: Request, large: Request)
    requires small == Request(1024, 6, 0) && large == Request(0x4000_0400, 6, 0)
    ensures Collide(small, large) && LayoutOf(small).total == 1024 && LayoutOf(large).total == 0x4000_0400
    ensures !Transparent(PoolSizing, AsWritten, 0x200_0000, iset{large, small})
    ensures exists s, b :: RunTo(PoolSizing, AsWritten, 0x200_0000, Fooled(small, large, b), s) && b.block.len == 1024
  {
    KeyLosesHighBits(small, large);
    ClashIff(small, large);
    PoolKeysMatch();
    var limit := 0x200_0000;
    assert Reaches(PoolSizing, large, limit);
    HazardShows(PoolSizing, AsWritten, limit, iset{large, small}, small, large);
    FooledRun(limit, small, large);
  }

  /** Blocks for `large` and `small` are taken and dropped, and `large` is asked for again. */
  function Fooled(small: Request, large: Request, b: Buffer): seq<Op>
    requires IsRequest(small) && IsRequest(large)
  {
    var l0, l1 := LayoutOf(large), LayoutOf(small);
    TakeTwo(large, l0, small, l1, Made(l0, large.bit, 0), Made(l1, small.bit, 1))
    + [Drop(0)] + [Drop(1)] + [Malloc(large, b)]
  }

  lemma FooledRun(limit: nat, small: Request, large: Request)
    requires KeysMatch(PoolSizing) && Clash(PoolSizing, small, large) && Reaches(PoolSizing, large, limit)
    requires small.bit == large.bit
    ensures exists s, b ::
              RunTo(PoolSizing, AsWritten, limit, Fooled(small, large, b), s) && b.block.len == LayoutOf(small).total
  {
    WrittenMishap(PoolSizing, limit, large, small, large);
    var l0, l1 := LayoutOf(large), LayoutOf(small);
    var d0, d1 := Made(l0, large.bit, 0), Made(l1, small.bit, 1);
    var s :| RunTo(PoolSizing, AsWritten, limit, LongMishap(large, l0, small, l1, large, l0, d0, d1), s);
    assert LongMishap(large, l0, small, l1, large, l0, d0, d1) == Fooled(small, large, Taken(d1, l0));
  }
}
