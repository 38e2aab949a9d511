/** Runs of `malloc` and `release` on the pool of `byte_buffer.cpp`: no block is lost or freed twice, and
    what the cache limit really bounds.  The bookkeeping does not depend on how lengths and keys are
    computed, so runs are stated for any `Sizing`; the pool's own is `PoolSizing`. */
module BufferPool {
  import opened Common
  import opened Bits
  import opened BlockLayout

  /** `byte_buffer_data`; `id` tells allocations apart, `base` is the address. */
  datatype Block = Block(id: nat, base: nat, len: nat, bit: nat)

  datatype Entry = Entry(key: nat, block: Block)

  /** `byte_buffer_impl`; `headerLen` and `dataBegin` are 16 bits wide. */
  datatype Buffer = Buffer(block: Block, headerLen: nat, dataBegin: nat, dataLen: nat)

  /** The pool, the blocks its clients hold, and the blocks given back to the system, in order. */
  datatype PoolState = PoolState(limit: nat, cacheBytes: int, cache: seq<Entry>,
                                 live: map<nat, Block>, freed: seq<nat>, next: nat)

  function Empty(limit: nat): PoolState {
    PoolState(limit, 0, [], map[], [], 0)
  }

  /** The comparison of `release`, as written and as the limit's name suggests. */
  datatype Policy = AsWritten | AsIntended

  predicate Frees(p: Policy, s: PoolState, len: nat) {
    match p
    case AsWritten => s.cacheBytes + len < s.limit
    case AsIntended => s.cacheBytes + len > s.limit
  }

  function RemoveAt<T>(s: seq<T>, i: nat): seq<T>
    requires i < |s|
  {
    s[..i] + s[i + 1..]
  }

  /** What `malloc` returns for layout `l` when nothing is cached and the system hands out `base`. */
  function FreshBuffer(l: Layout, bit: nat, id: nat, base: nat): Buffer {
    Buffer(Block(id, base, l.total, bit), U16(l.header), 0, 0)
  }

  ghost predicate HitAt(s: PoolState, l: Layout, s': PoolState, b: Buffer, i: nat) {
    && i < |s.cache|
    && s.cache[i].key == l.key
    && b == Buffer(s.cache[i].block, U16(l.header), 0, 0)
    && s' == s.(cacheBytes := s.cacheBytes - b.block.len, cache := RemoveAt(s.cache, i),
                live := s.live[b.block.id := b.block])
  }

  ghost predicate Miss(s: PoolState, l: Layout, bit: nat, s': PoolState, b: Buffer) {
    && b == FreshBuffer(l, bit, s.next, b.block.base)
    && b.block.base % Pow2(bit) == 0
    && s' == s.(live := s.live[s.next := b.block], next := s.next + 1)
  }

  predicate Cached(s: PoolState, key: nat) {
    exists i :: 0 <= i < |s.cache| && s.cache[i].key == key
  }

  /** `malloc`: any cached block under the looked-up key, or else a fresh one. */
  ghost predicate MallocStep(s: PoolState, l: Layout, bit: nat, s': PoolState, b: Buffer) {
    if Cached(s, l.key) then exists i: nat :: HitAt(s, l, s', b, i)
    else Miss(s, l, bit, s', b)
  }

  /** `release`, called once per buffer by its destructor. */
  function Release(p: Policy, s: PoolState, id: nat): PoolState
    requires id in s.live
  {
    var d := s.live[id];
    if Frees(p, s, d.len) then s.(live := s.live - {id}, freed := s.freed + [id])
    else s.(cacheBytes := s.cacheBytes + d.len, cache := s.cache + [Entry(Key(d.len, d.bit), d)], live := s.live - {id})
  }

  /** The pool's destructor frees every cached block. */
  function Destroy(s: PoolState): PoolState {
    s.(cache := [], freed := s.freed + CacheIds(s.cache))
  }

  function CacheIds(cache: seq<Entry>): seq<nat> {
    if cache == [] then [] else CacheIds(cache[..|cache| - 1]) + [cache[|cache| - 1].block.id]
  }

  function CacheSum(cache: seq<Entry>): nat {
    if cache == [] then 0 else CacheSum(cache[..|cache| - 1]) + cache[|cache| - 1].block.len
  }

  // ------------------------------------------------------------------ invariants

  function CacheCount(cache: seq<Entry>, id: nat): nat {
    if cache == [] then 0 else CacheCount(cache[..|cache| - 1], id) + if cache[|cache| - 1].block.id == id then 1 else 0
  }

  /** How often a block occurs among live, cached and freed blocks. */
  function Places(s: PoolState, id: nat): nat {
    (if id in s.live then 1 else 0) + CacheCount(s.cache, id) + Count(s.freed, id)
  }

  /** Every block ever allocated is in exactly one place, exactly once; the byte count is the sum of
      the cached lengths; every cached block is filed under its own key. */
  ghost predicate Inv(s: PoolState) {
    && (forall id: nat :: Places(s, id) == if id < s.next then 1 else 0)
    && (forall id :: id in s.live ==> s.live[id].id == id)
    && s.cacheBytes == CacheSum(s.cache)
    && (forall i :: 0 <= i < |s.cache| ==> Filed(s.cache[i]))
  }

  predicate Filed(e: Entry) {
    e.key == Key(e.block.len, e.block.bit)
  }

  lemma {:induction false} RemoveAtCache(cache: seq<Entry>, i: nat, id: nat)
    requires i < |cache|
    ensures CacheCount(cache, id) == CacheCount(RemoveAt(cache, i), id) + if cache[i].block.id == id then 1 else 0
    ensures CacheSum(cache) == CacheSum(RemoveAt(cache, i)) + cache[i].block.len
  {
    var n := |cache| - 1;
    var front, rest := cache[..n], RemoveAt(cache, i);
    if i == n {
      assert rest == front;
    } else {
      RemoveAtCache(front, i, id);
      assert rest == RemoveAt(front, i) + [cache[n]];
      AppendCache(RemoveAt(front, i), cache[n], id);
    }
  }

  lemma AppendCache(cache: seq<Entry>, e: Entry, id: nat)
    ensures CacheCount(cache + [e], id) == CacheCount(cache, id) + if e.block.id == id then 1 else 0
    ensures CacheSum(cache + [e]) == CacheSum(cache) + e.block.len
  {
    assert (cache + [e])[..|cache|] == cache;
  }

  lemma {:induction false} AppendAllFreed(freed: seq<nat>, cache: seq<Entry>, id: nat)
    ensures Count(freed + CacheIds(cache), id) == Count(freed, id) + CacheCount(cache, id)
  {
    if cache == [] {
      assert freed + CacheIds(cache) == freed;
    } else {
      var n := |cache| - 1;
      AppendAllFreed(freed, cache[..n], id);
      assert freed + CacheIds(cache) == freed + CacheIds(cache[..n]) + [cache[n].block.id];
      CountSnoc(freed + CacheIds(cache[..n]), cache[n].block.id, id);
    }
  }

  lemma HitKeepsInv(s: PoolState, l: Layout, s': PoolState, b: Buffer, i: nat)
    requires Inv(s) && HitAt(s, l, s', b, i)
    ensures Inv(s')
  {
    var x := b.block.id;
    forall id: nat
      ensures Places(s', id) == if id < s.next then 1 else 0
    {
      assert Places(s, id) == if id < s.next then 1 else 0;
      assert Places(s, x) == if x < s.next then 1 else 0;
      RemoveAtCache(s.cache, i, id);
      RemoveAtCache(s.cache, i, x);
    }
    RemoveAtCache(s.cache, i, 0);
  }

  lemma MissKeepsInv(s: PoolState, l: Layout, bit: nat, s': PoolState, b: Buffer)
    requires Inv(s) && Miss(s, l, bit, s', b)
    ensures Inv(s')
  {
    forall id: nat
      ensures Places(s', id) == if id < s'.next then 1 else 0
    {
      assert Places(s, id) == if id < s.next then 1 else 0;
    }
  }

  lemma MallocKeepsInv(s: PoolState, l: Layout, bit: nat, s': PoolState, b: Buffer)
    requires Inv(s) && MallocStep(s, l, bit, s', b)
    ensures Inv(s')
  {
    if Cached(s, l.key) {
      var i: nat :| HitAt(s, l, s', b, i);
      HitKeepsInv(s, l, s', b, i);
    } else {
      MissKeepsInv(s, l, bit, s', b);
    }
  }

  lemma ReleaseKeepsInv(p: Policy, s: PoolState, x: nat)
    requires Inv(s) && x in s.live
    ensures Inv(Release(p, s, x))
  {
    var d := s.live[x];
    var s' := Release(p, s, x);
    forall id: nat
      ensures Places(s', id) == if id < s.next then 1 else 0
    {
      assert Places(s, id) == if id < s.next then 1 else 0;
      AppendCache(s.cache, Entry(Key(d.len, d.bit), d), id);
      CountSnoc(s.freed, x, id);
    }
    AppendCache(s.cache, Entry(Key(d.len, d.bit), d), 0);
  }

  // ------------------------------------------------------------------ the class

  class Pool {
    const limit: nat
    var cacheBytes: int
    var cache: seq<Entry>
    var next: nat                   // numbers allocations; bookkeeping of the model
    ghost var live: map<nat, Block>
    ghost var freed: seq<nat>

    ghost function State(): PoolState
      reads this
    {
      PoolState(limit, cacheBytes, cache, live, freed, next)
    }

    constructor (limit: nat)
      ensures State() == Empty(limit) && Inv(State())
    {
      this.limit := limit;
      cacheBytes, cache, next := 0, [], 0;
      live, freed := map[], [];
    }

    /** `base` is the address the system hands out if a fresh block is needed. */
    method Malloc(r: Request, base: nat) returns (b: Buffer)
      requires IsRequest(r) && base % Pow2(r.bit) == 0
      requires Inv(State())
      modifies this
      ensures MallocStep(old(State()), LayoutOf(r), r.bit, State(), b) && Inv(State())
      ensures b.headerLen == U16(LayoutOf(r).header) && b.dataBegin == b.dataLen == 0
      ensures live == old(live)[b.block.id := b.block] && freed == old(freed)
      ensures |cache| == |old(cache)| ==>
                b.block == Block(old(next), base, LayoutOf(r).total, r.bit) && !Cached(old(State()), LayoutOf(r).key)
      ensures |cache| != |old(cache)| ==>
                Entry(LayoutOf(r).key, b.block) in old(cache) && cacheBytes == old(cacheBytes) - b.block.len
    {
      b := MallocLayout(LayoutOf(r), r.bit, base);
    }

    /** Lookup and allocation, once the lengths and the key are computed. */
    method MallocLayout(l: Layout, bit: nat, base: nat) returns (b: Buffer)
      requires base % Pow2(bit) == 0 && Inv(State())
      modifies this
      ensures MallocStep(old(State()), l, bit, State(), b) && Inv(State())
      ensures b.headerLen == U16(l.header) && b.dataBegin == b.dataLen == 0
      ensures live == old(live)[b.block.id := b.block] && freed == old(freed)
      ensures |cache| == |old(cache)| ==>
                b.block == Block(old(next), base, l.total, bit) && !Cached(old(State()), l.key)
      ensures |cache| != |old(cache)| ==>
                Entry(l.key, b.block) in old(cache) && cacheBytes == old(cacheBytes) - b.block.len
    {
      ghost var before := State();
      if exists i :: 0 <= i < |cache| && cache[i].key == l.key {
        var i: nat :| i < |cache| && cache[i].key == l.key;
        b := Buffer(cache[i].block, U16(l.header), 0, 0);
        cacheBytes := cacheBytes - cache[i].block.len;
        cache := RemoveAt(cache, i);
        live := live[b.block.id := b.block];
        assert HitAt(before, l, State(), b, i);
      } else {
        b := FreshBuffer(l, bit, next, base);
        live := live[next := b.block];
        next := next + 1;
        assert Miss(before, l, bit, State(), b);
      }
      MallocKeepsInv(before, l, bit, State(), b);
    }

    method ReleaseBlock(d: Block)
      requires Inv(State())
      requires d.id in live && live[d.id] == d
      modifies this
      ensures State() == Release(AsWritten, old(State()), d.id) && Inv(State())
      ensures d.id !in live && live.Keys + {d.id} == old(live.Keys)
      ensures if old(cacheBytes) + d.len < limit then freed == old(freed) + [d.id] && cache == old(cache)
              else freed == old(freed) && cache == old(cache) + [Entry(Key(d.len, d.bit), d)]
    {
      ReleaseKeepsInv(AsWritten, State(), d.id);
      live := live - {d.id};
      if cacheBytes + d.len < limit {
        freed := freed + [d.id];
        return;
      }
      cacheBytes := cacheBytes + d.len;
      cache := cache + [Entry(Key(d.len, d.bit), d)];
    }
  }

  // ------------------------------------------------------------------ whole runs

  /** How a request is turned into lengths and a key, or none if that is undefined. */
  type Sizing = Request -> Option<Layout>

  function PoolSizing(r: Request): Option<Layout> {
    if IsRequest(r) then Some(LayoutOf(r)) else None
  }

  datatype Op = Malloc(r: Request, b: Buffer) | Drop(id: nat)

  ghost predicate Step(lay: Sizing, p: Policy, s: PoolState, op: Op, s': PoolState) {
    match op
    case Malloc(r, b) => lay(r).Some? && MallocStep(s, lay(r).value, r.bit, s', b)
    case Drop(id) => id in s.live && s' == Release(p, s, id)
  }

  ghost predicate IsRun(lay: Sizing, p: Policy, limit: nat, states: seq<PoolState>, ops: seq<Op>) {
    && |states| == |ops| + 1
    && states[0] == Empty(limit)
    && forall i :: 0 <= i < |ops| ==> Step(lay, p, states[i], ops[i], states[i + 1])
  }

  lemma {:induction false} RunInv(lay: Sizing, p: Policy, limit: nat, states: seq<PoolState>, ops: seq<Op>)
    requires IsRun(lay, p, limit, states, ops)
    ensures Inv(states[|ops|]) && states[|ops|].limit == limit
    decreases |ops|
  {
    if ops != [] {
      var n := |ops| - 1;
      RunInv(lay, p, limit, states[..n + 1], ops[..n]);
      assert Step(lay, p, states[n], ops[n], states[n + 1]);
      match ops[n] {
        case Malloc(r, b) => MallocKeepsInv(states[n], lay(r).value, r.bit, states[n + 1], b);
        case Drop(id) => ReleaseKeepsInv(p, states[n], id);
      }
    }
  }

  /** Conservation: once the clients hold nothing, destroying the pool leaves every block ever
      allocated freed exactly once; the byte count never goes below zero. */
  lemma EveryBlockIsFreedOnce(lay: Sizing, p: Policy, limit: nat, states: seq<PoolState>, ops: seq<Op>)
    requires IsRun(lay, p, limit, states, ops)
    requires states[|ops|].live == map[]
    ensures states[|ops|].cacheBytes >= 0
    ensures forall id: nat :: Count(Destroy(states[|ops|]).freed, id) == if id < states[|ops|].next then 1 else 0
  {
    RunInv(lay, p, limit, states, ops);
    var s := states[|ops|];
    forall id: nat
      ensures Count(Destroy(s).freed, id) == if id < s.next then 1 else 0
    {
      assert Places(s, id) == if id < s.next then 1 else 0;
      AppendAllFreed(s.freed, s.cache, id);
    }
  }

  // ------------------------------------------------------------------ the cache limit

  /** The intended comparison keeps the cached bytes within the limit over every run. */
  lemma {:induction false} IntendedBound(lay: Sizing, limit: nat, states: seq<PoolState>, ops: seq<Op>)
    requires IsRun(lay, AsIntended, limit, states, ops)
    ensures states[|ops|].cacheBytes <= limit
    decreases |ops|
  {
    RunInv(lay, AsIntended, limit, states, ops);
    if ops != [] {
      var n := |ops| - 1;
      IntendedBound(lay, limit, states[..n + 1], ops[..n]);
      RunInv(lay, AsIntended, limit, states[..n + 1], ops[..n]);
      assert Step(lay, AsIntended, states[n], ops[n], states[n + 1]);
    }
  }

  /** The comparison as written: over every run, a step that adds to the cache leaves at least the
      limit in it. */
  lemma WrittenInsertionReachesLimit(lay: Sizing, limit: nat, states: seq<PoolState>, ops: seq<Op>, k: nat)
    requires IsRun(lay, AsWritten, limit, states, ops)
    requires k < |ops| && |states[k + 1].cache| > |states[k].cache|
    ensures states[k + 1].cacheBytes >= limit
  {
    RunInv(lay, AsWritten, limit, states[..k + 1], ops[..k]);
    assert Step(lay, AsWritten, states[k], ops[k], states[k + 1]);
  }

  /** The operation releases a block that is at least as long as the limit. */
  predicate DropsLong(s: PoolState, op: Op, limit: nat) {
    op.Drop? && op.id in s.live && s.live[op.id].len >= limit
  }

  /** As written, a run starting with an empty cache keeps it empty exactly when it never releases
      a block that is at least as long as the limit. */
  lemma {:induction false} WrittenCacheStaysEmptyIff(lay: Sizing, limit: nat, states: seq<PoolState>, ops: seq<Op>)
    requires IsRun(lay, AsWritten, limit, states, ops)
    ensures (forall i :: 0 <= i < |states| ==> states[i].cache == [])
       <==> (forall i :: 0 <= i < |ops| ==> !DropsLong(states[i], ops[i], limit))
    decreases |ops|
  {
    if ops != [] {
      var n := |ops| - 1;
      var earlier, ops' := states[..n + 1], ops[..n];
      WrittenCacheStaysEmptyIff(lay, limit, earlier, ops');
      RunInv(lay, AsWritten, limit, earlier, ops');
      assert Step(lay, AsWritten, states[n], ops[n], states[n + 1]);
      assert (forall i :: 0 <= i < |states| ==> states[i].cache == [])
        <==> (forall i :: 0 <= i < |earlier| ==> earlier[i].cache == []) && states[n + 1].cache == [];
      assert earlier[n] == states[n];
    }
  }
}
