/** The name cache of the proxy: an array of entries threaded into bucket chains and one free list by
    their `next` links. A pointer into the array is its index, NULL is -1. */
module NameCache {
  import opened Bytes
  import B = ByteHelper

  type Hash = seq<byte>

  const NULL := -1

  datatype Entry = Entry(hash: Hash, value: nat, expires: nat, next: int)

  /** An entry without its link. */
  datatype Item = Item(hash: Hash, value: nat, expires: nat)

  const Blank := Entry([0, 0, 0, 0, 0, 0, 0, 0], 0, 0, NULL)

  function ItemOf(e: Entry): Item { Item(e.hash, e.value, e.expires) }

  // ---- Hashing ----

  /** toupper in the C locale. */
  function ToUpper(c: byte): byte { if 97 <= c <= 122 then c - 32 else c }

  function Mix(h: Hash, i: nat, c: byte): Hash
    requires i < |h|
  {
    h[i := (h[i] as int + ToUpper(c) as int - 32) % 256]
  }

  /** The hash after the first `j` characters: characters are summed into eight bytes in turn. */
  function HashOf(name: seq<byte>, j: nat): (h: Hash)
    requires j <= |name|
    ensures |h| == 8
  {
    if j == 0 then [0, 0, 0, 0, 0, 0, 0, 0] else
    Mix(HashOf(name, j - 1), (j - 1) % 8, name[j - 1])
  }

  /** The sum of every eighth character from `i` on, upper-cased and counted from the blank, among the
      first `k`. */
  function ColumnSum(name: seq<byte>, i: nat, k: nat): int
    requires k <= |name|
  {
    if k == 0 then 0
    else ColumnSum(name, i, k - 1) + if (k - 1) % 8 == i then Upper(name[k - 1]) - 32 else 0
  }

  /** The small letters a to z stand 32 above the capitals. */
  function Upper(c: byte): int { if 'a' as int <= c <= 'z' as int then c - 'a' as int + 'A' as int else c }

  lemma {:induction false} HashIsColumns(name: seq<byte>, j: nat)
    requires j <= |name|
    ensures forall i :: 0 <= i < 8 ==> HashOf(name, j)[i] == ColumnSum(name, i, j) % 256
  {
    if j > 0 {
      HashIsColumns(name, j - 1);
      var c := (j - 1) % 8;
      AddMod(ColumnSum(name, c, j - 1), Upper(name[j - 1]) - 32);
    }
  }

  lemma {:induction false} AddMod(v: int, x: int)
    ensures (v % 256 + x) % 256 == (v + x) % 256
  {
  }

  /** Two names have the same sums, column by column, modulo 256. */
  predicate SameColumns(a: seq<byte>, b: seq<byte>) {
    forall i :: 0 <= i < 8 ==> ColumnSum(a, i, |a|) % 256 == ColumnSum(b, i, |b|) % 256
  }

  /** Exactly when two names have the same hash. */
  lemma {:induction false} SameHashIff(a: seq<byte>, b: seq<byte>)
    ensures HashOf(a, |a|) == HashOf(b, |b|) <==> SameColumns(a, b)
  {
    hide HashOf, ColumnSum;
    HashIsColumns(a, |a|);
    HashIsColumns(b, |b|);
    var g, h := HashOf(a, |a|), HashOf(b, |b|);
    if SameColumns(a, b) {
      forall i | 0 <= i < 8
        ensures g[i] == h[i]
      {
        assert ColumnSum(a, i, |a|) % 256 == ColumnSum(b, i, |b|) % 256;
      }
      assert g == h;
    }
    if g == h {
      forall i | 0 <= i < 8
        ensures ColumnSum(a, i, |a|) % 256 == ColumnSum(b, i, |b|) % 256
      {
        assert g[i] == h[i];
      }
    }
  }

  /** What changing one character does to a column. */
  lemma {:induction false} ColumnChanges(name: seq<byte>, at: nat, c: byte, i: nat, k: nat)
    requires at < |name| && k <= |name|
    ensures ColumnSum(name[at := c], i, k)
         == ColumnSum(name, i, k) + if at < k && at % 8 == i then Upper(c) - Upper(name[at]) else 0
  {
    if k > 0 { ColumnChanges(name, at, c, i, k - 1); }
  }

  /** Replacing a character always changes the hash, unless only its case changes. */
  lemma {:induction false} OneCharacterMatters(name: seq<byte>, at: nat, c: byte)
    requires at < |name|
    ensures HashOf(name[at := c], |name|) == HashOf(name, |name|) <==> Upper(c) == Upper(name[at])
  {
    hide HashOf, ColumnSum;
    var other := name[at := c];
    SameHashIff(other, name);
    forall i | 0 <= i < 8
      ensures ColumnSum(other, i, |name|) == ColumnSum(name, i, |name|) + if at % 8 == i then Upper(c) - Upper(name[at]) else 0
    {
      ColumnChanges(name, at, c, i, |name|);
    }
    var column, d := at % 8, Upper(c) - Upper(name[at]);
    Apart256(ColumnSum(name, column, |name|), d);
    assert ColumnSum(other, column, |name|) == ColumnSum(name, column, |name|) + d;
  }

  lemma {:induction false} Apart256(v: int, d: int)
    requires -256 < d < 256
    ensures (v + d) % 256 == v % 256 <==> d == 0
  {
  }

  lemma {:induction false} SameSums(a: seq<byte>, b: seq<byte>, i: nat, k: nat)
    requires |a| == |b| && k <= |a| && forall j :: 0 <= j < |a| ==> Upper(a[j]) == Upper(b[j])
    ensures ColumnSum(a, i, k) == ColumnSum(b, i, k)
  {
    if k > 0 { SameSums(a, b, i, k - 1); }
  }

  /** Names that are equal up to the case of ASCII letters have the same hash. */
  lemma {:induction false} CaseDoesNotMatter(a: seq<byte>, b: seq<byte>)
    requires |a| == |b| && forall j :: 0 <= j < |a| ==> Upper(a[j]) == Upper(b[j])
    ensures HashOf(a, |a|) == HashOf(b, |b|)
  {
    hide HashOf, ColumnSum;
    forall i | 0 <= i < 8
      ensures ColumnSum(a, i, |a|) % 256 == ColumnSum(b, i, |b|) % 256
    {
      SameSums(a, b, i, |a|);
    }
    SameHashIff(a, b);
  }

  method NameToHash(name: seq<byte>) returns (hash: Hash)
    ensures hash == HashOf(name, |name|)
    ensures |hash| == 8 && forall i :: 0 <= i < 8 ==> hash[i] == ColumnSum(name, i, |name|) % 256
  {
    hide Mix;
    HashIsColumns(name, |name|);
    hash := [0, 0, 0, 0, 0, 0, 0, 0];
    var i, j := 0, 0;
    while j < |name|
      invariant 0 <= j <= |name| && i == j % 8 && hash == HashOf(name, j)
    {
      hash := Mix(hash, i, name[j]);
      i, j := i + 1, j + 1;
      if i == 8 { i := 0; }
    }
  }

  function Word(h: Hash, i: nat): nat
    requires i + 4 <= |h|
  {
    var b0: nat, b1: nat, b2: nat, b3: nat := h[i], h[i + 1], h[i + 2], h[i + 3];
    b0 + 0x100 * b1 + 0x1_0000 * b2 + 0x100_0000 * b3
  }

  function HashIndex(h: Hash, buckets: nat): (b: nat)
    requires |h| == 8 && buckets > 0
    ensures b < buckets
  {
    (Word(h, 0) * 54321 + Word(h, 4)) % 0x1_0000_0000 % buckets
  }

  /** The bucket follows from the two words of the hash, low byte first, in 32-bit arithmetic. */
  lemma {:induction false} IndexFromWords(h: Hash, buckets: nat)
    requires |h| == 8 && buckets > 0
    ensures HashIndex(h, buckets) == (B.LittleEndian(h[..4]) * 54321 + B.LittleEndian(h[4..])) % 0x1_0000_0000 % buckets
  {
    hide HashIndex;
    FourBytes(h[..4]);
    FourBytes(h[4..]);
    WordIs(h, 0);
    WordIs(h, 4);
    IndexIs(h, buckets);
    assert h[0..4] == h[..4] && h[4..8] == h[4..];
  }

  lemma {:induction false} IndexIs(h: Hash, buckets: nat)
    requires |h| == 8 && buckets > 0
    ensures HashIndex(h, buckets) == (Word(h, 0) * 54321 + Word(h, 4)) % 0x1_0000_0000 % buckets
  {
  }

  lemma {:induction false} WordIs(h: Hash, i: nat)
    requires i + 4 <= |h|
    ensures Word(h, i) == Word(h[i..i + 4], 0)
  {
  }

  lemma {:induction false} FourBytes(b: seq<byte>)
    requires |b| == 4
    ensures B.LittleEndian(b) == Word(b, 0)
  {
    assert b[..3][..2] == b[..2] && b[..2][..1] == b[..1] && b[..1][..0] == [];
    assert B.LittleEndian(b[..1]) == b[0] && B.LittleEndian(b[..2]) == b[0] as int + 0x100 * b[1] as int;
    assert B.LittleEndian(b[..3]) == b[0] as int + 0x100 * b[1] as int + 0x1_0000 * b[2] as int;
  }

  // ---- What a lookup means ----

  /** The value of the first unexpired entry of a chain with hash `h`, else 0. */
  function Lookup(chain: seq<Item>, h: Hash, t: nat): nat {
    if chain == [] then 0
    else if chain[0].hash == h && chain[0].expires >= t then chain[0].value
    else Lookup(chain[1..], h, t)
  }

  /** The value of the newest unexpired accepted entry with hash `h`, else 0. */
  function Newest(accepted: seq<Item>, h: Hash, t: nat): nat {
    if accepted == [] then 0 else
    var last := accepted[|accepted| - 1];
    if last.hash == h && last.expires >= t then last.value else Newest(accepted[..|accepted| - 1], h, t)
  }

  predicate Matches(item: Item, h: Hash, t: nat) { item.hash == h && item.expires >= t }

  /** The answer is the value of the entry with this hash that has not expired and has none like it behind
      it, and 0 if there is no such entry. */
  lemma {:induction false} NewestMeans(accepted: seq<Item>, h: Hash, t: nat)
    ensures if exists i :: 0 <= i < |accepted| && Matches(accepted[i], h, t)
            then exists i :: 0 <= i < |accepted| && Matches(accepted[i], h, t) && Newest(accepted, h, t) == accepted[i].value
                             && forall j :: i < j < |accepted| ==> !Matches(accepted[j], h, t)
            else Newest(accepted, h, t) == 0
  {
    if accepted != [] {
      var n := |accepted| - 1;
      if Matches(accepted[n], h, t) {
        assert Newest(accepted, h, t) == accepted[n].value;
      } else {
        NewestMeans(accepted[..n], h, t);
        if i :| 0 <= i < |accepted| && Matches(accepted[i], h, t) {
          assert accepted[..n][i] == accepted[i];
          var k :| 0 <= k < n && Matches(accepted[..n][k], h, t) && Newest(accepted[..n], h, t) == accepted[..n][k].value
                   && forall j :: k < j < n ==> !Matches(accepted[..n][j], h, t);
          assert forall j :: k < j < n ==> accepted[j] == accepted[..n][j];
          assert Matches(accepted[k], h, t);
        }
      }
    }
  }

  // ---- What the calls do to the buckets ----

  /** How many entries are free, and what the buckets hold. */
  datatype Store = Store(room: nat, buckets: seq<seq<Item>>)

  function EmptyStore(size: nat): Store { Store(size, seq(size / 4, _ => [])) }

  /** An entry is accepted exactly when there is a free one and its bucket is empty or already holds the
      same hash. */
  predicate Accepts(s: Store, item: Item)
    requires |s.buckets| > 0 && |item.hash| == 8
  {
    && item.value != 0 && s.room > 0
    && var bucket := s.buckets[HashIndex(item.hash, |s.buckets|)];
       bucket == [] || bucket[0].hash == item.hash
  }

  function AddTo(s: Store, item: Item): (r: Store)
    requires |s.buckets| > 0 && |item.hash| == 8
    ensures |r.buckets| == |s.buckets|
  {
    if !Accepts(s, item) then s else
    var b := HashIndex(item.hash, |s.buckets|);
    Store(s.room - 1, s.buckets[b := [item] + s.buckets[b]])
  }

  /** A chain after a lookup of `h` at time `t`: what had expired before the entry found is gone. */
  function Pruned(chain: seq<Item>, h: Hash, t: nat): (r: seq<Item>)
    ensures |r| <= |chain|
  {
    if chain == [] then []
    else if chain[0].expires < t then Pruned(chain[1..], h, t)
    else if chain[0].hash == h then chain
    else [chain[0]] + Pruned(chain[1..], h, t)
  }

  function Unexpired(chain: seq<Item>, t: nat): seq<Item> {
    if chain == [] then [] else (if chain[0].expires >= t then [chain[0]] else []) + Unexpired(chain[1..], t)
  }

  /** A lookup frees exactly the expired entries in front of the one it finds, or all in the bucket if it
      finds none. */
  lemma {:induction false} PrunedMeans(chain: seq<Item>, h: Hash, t: nat) returns (k: nat)
    ensures k <= |chain| && (forall i :: 0 <= i < k ==> !Matches(chain[i], h, t))
    ensures k < |chain| ==> Matches(chain[k], h, t)
    ensures Pruned(chain, h, t) == Unexpired(chain[..k], t) + chain[k..]
  {
    hide Pruned, Unexpired;
    PrunedFront(chain, h, t);
    if chain == [] || Matches(chain[0], h, t) {
      k := 0;
      NoneUnexpired(chain, t);
    } else {
      k := PrunedMeans(chain[1..], h, t);
      UnexpiredFront(chain, k, t);
      assert forall i :: 1 <= i < k + 1 ==> chain[i] == chain[1..][i - 1];
      k := k + 1;
    }
  }

  lemma {:induction false} PrunedFront(chain: seq<Item>, h: Hash, t: nat)
    ensures Pruned(chain, h, t)
         == if chain == [] || Matches(chain[0], h, t) then chain
            else (if chain[0].expires >= t then [chain[0]] else []) + Pruned(chain[1..], h, t)
  {
    assert chain != [] ==> [] + Pruned(chain[1..], h, t) == Pruned(chain[1..], h, t);
  }

  lemma {:induction false} NoneUnexpired(chain: seq<Item>, t: nat)
    ensures Unexpired(chain[..0], t) + chain[0..] == chain
  {
  }

  lemma {:induction false} UnexpiredFront(chain: seq<Item>, k: nat, t: nat)
    requires k < |chain|
    ensures Unexpired(chain[..k + 1], t) + chain[k + 1..]
         == (if chain[0].expires >= t then [chain[0]] else []) + (Unexpired(chain[1..][..k], t) + chain[1..][k..])
  {
    assert chain[..k + 1][1..] == chain[1..][..k];
  }

  function SearchIn(s: Store, h: Hash, t: nat): (r: Store)
    requires |s.buckets| > 0 && |h| == 8
    ensures |r.buckets| == |s.buckets|
  {
    var b := HashIndex(h, |s.buckets|);
    var chain := Pruned(s.buckets[b], h, t);
    Store(s.room + (|s.buckets[b]| - |chain|), s.buckets[b := chain])
  }

  /** A search that has come to position `k` of a bucket, dropping what had expired on the way. */
  ghost predicate Searching(was: Store, s: Store, b: nat, k: nat, h: Hash, t: nat) {
    && b < |was.buckets| == |s.buckets| && k <= |s.buckets[b]|
    && s.buckets == was.buckets[b := s.buckets[b]] && s.room + |s.buckets[b]| == was.room + |was.buckets[b]|
    && s.buckets[b][..k] + Pruned(s.buckets[b][k..], h, t) == Pruned(was.buckets[b], h, t)
  }

  lemma {:induction false} SearchStarts(s: Store, b: nat, h: Hash, t: nat)
    requires b < |s.buckets|
    ensures Searching(s, s, b, 0, h, t)
  {
  }

  lemma {:induction false} SearchDrops(was: Store, s: Store, b: nat, k: nat, h: Hash, t: nat)
    requires Searching(was, s, b, k, h, t) && k < |s.buckets[b]| && s.buckets[b][k].expires < t
    ensures Searching(was, Store(s.room + 1, s.buckets[b := Without(s.buckets[b], k)]), b, k, h, t)
  {
    var chain := s.buckets[b];
    assert chain[k..][1..] == chain[k + 1..] == Without(chain, k)[k..];
  }

  lemma {:induction false} SearchKeeps(was: Store, s: Store, b: nat, k: nat, h: Hash, t: nat)
    requires Searching(was, s, b, k, h, t) && k < |s.buckets[b]|
    requires s.buckets[b][k].expires >= t && s.buckets[b][k].hash != h
    ensures Searching(was, s, b, k + 1, h, t)
  {
    var chain := s.buckets[b];
    assert chain[k..][1..] == chain[k + 1..];
    assert chain[..k + 1] == chain[..k] + [chain[k]];
  }

  lemma {:induction false} SearchEnds(was: Store, s: Store, b: nat, k: nat, h: Hash, t: nat)
    requires Searching(was, s, b, k, h, t) && |h| == 8 && b == HashIndex(h, |was.buckets|)
    requires k < |s.buckets[b]| ==> s.buckets[b][k].expires >= t && s.buckets[b][k].hash == h
    ensures s == SearchIn(was, h, t)
  {
    hide HashIndex;
    assert s.buckets[b][..k] + Pruned(s.buckets[b][k..], h, t) == s.buckets[b];
  }

  /** Entries in use. */
  function InUse(buckets: seq<seq<Item>>): nat {
    if buckets == [] then 0 else |buckets[0]| + InUse(buckets[1..])
  }

  lemma {:induction false} InUseAfter(buckets: seq<seq<Item>>, b: nat, chain: seq<Item>)
    requires b < |buckets|
    ensures InUse(buckets[b := chain]) + |buckets[b]| == InUse(buckets) + |chain|
  {
    if b == 0 {
      assert buckets[b := chain][1..] == buckets[1..];
    } else {
      InUseAfter(buckets[1..], b - 1, chain);
      assert buckets[b := chain][1..] == buckets[1..][b - 1 := chain];
    }
  }

  lemma {:induction false} NoneInUse(buckets: seq<seq<Item>>)
    requires forall b :: 0 <= b < |buckets| ==> buckets[b] == []
    ensures InUse(buckets) == 0
  {
    if buckets != [] { NoneInUse(buckets[1..]); }
  }

  /** Dropping an entry that has expired by `t` changes no lookup from `t` on. */
  lemma {:induction false} DropExpired(chain: seq<Item>, k: nat, h: Hash, t: nat)
    requires k < |chain| && chain[k].expires < t
    ensures Lookup(chain[..k] + chain[k + 1..], h, t) == Lookup(chain, h, t)
  {
    if k == 0 {
      assert chain[..0] + chain[1..] == chain[1..];
    } else {
      DropExpired(chain[1..], k - 1, h, t);
      assert (chain[..k] + chain[k + 1..])[1..] == chain[1..][..k - 1] + chain[1..][k..];
    }
  }

  /** A chain whose first `k` entries do not match is searched from `k` on. */
  lemma {:induction false} SkipOthers(chain: seq<Item>, k: nat, h: Hash, t: nat)
    requires k <= |chain| && forall i :: 0 <= i < k ==> chain[i].hash != h
    ensures Lookup(chain, h, t) == Lookup(chain[k..], h, t)
  {
    if k == 0 {
      assert chain[0..] == chain;
    } else {
      SkipOthers(chain[1..], k - 1, h, t);
      assert chain[1..][k - 1..] == chain[k..];
    }
  }

  // ---- Linked lists in the array ----

  function Follower(ids: seq<nat>, k: nat): int { if k + 1 < |ids| then ids[k + 1] else NULL }

  /** The links from `head` visit exactly `ids`, in order, and end. */
  ghost predicate IsList(es: seq<Entry>, head: int, ids: seq<nat>) {
    && head == (if ids == [] then NULL else ids[0])
    && (forall k :: 0 <= k < |ids| ==> ids[k] < |es|)
    && (forall k :: 0 <= k < |ids| ==> es[ids[k]].next == Follower(ids, k))
  }

  ghost predicate Distinct(ids: seq<nat>) { forall i, j :: 0 <= i < j < |ids| ==> ids[i] != ids[j] }

  function Without<T>(s: seq<T>, k: nat): seq<T>
    requires k < |s|
  {
    s[..k] + s[k + 1..]
  }

  ghost predicate SameItems(es: seq<Entry>, ids: seq<nat>, items: seq<Item>) {
    && |items| == |ids|
    && forall k :: 0 <= k < |ids| ==> ids[k] < |es| && ItemOf(es[ids[k]]) == items[k]
  }

  /** `owner` says where each entry is: FREE or the number of its bucket. */
  const FREE := -1

  ghost predicate Owns(owner: seq<int>, who: int, ids: seq<nat>) {
    && Distinct(ids)
    && (forall k :: 0 <= k < |ids| ==> ids[k] < |owner| && owner[ids[k]] == who)
    && (forall i :: 0 <= i < |owner| && owner[i] == who ==> i in ids)
  }

  /** The shape of the whole structure. */
  ghost predicate Shape(es: seq<Entry>, table: seq<int>, empty: int,
                        free: seq<nat>, chains: seq<seq<nat>>, lists: seq<seq<Item>>, owner: seq<int>)
  {
    && |owner| == |es| && |chains| == |table| == |lists|
    && IsList(es, empty, free) && Owns(owner, FREE, free)
    && (forall i :: 0 <= i < |owner| ==> FREE <= owner[i] < |table|)
    && (forall b :: 0 <= b < |table| ==> Bucket(es, table[b], chains[b], lists[b], owner, b))
  }

  /** Bucket `b` is the list `ids` from `head`, holds `items`, and owns exactly those entries. */
  ghost predicate Bucket(es: seq<Entry>, head: int, ids: seq<nat>, items: seq<Item>, owner: seq<int>, b: int) {
    IsList(es, head, ids) && SameItems(es, ids, items) && Owns(owner, b, ids)
  }

  /** All entries of a bucket share one hash, which belongs there. */
  ghost predicate OneHash(lists: seq<seq<Item>>) {
    forall b, k :: 0 <= b < |lists| && 0 <= k < |lists[b]| ==>
      |lists[b][k].hash| == 8 && HashIndex(lists[b][k].hash, |lists|) == b && lists[b][k].hash == lists[b][0].hash
  }

  /** From time `now` on, every lookup in the chains gives the newest accepted unexpired entry. */
  ghost predicate Answers(lists: seq<seq<Item>>, accepted: seq<Item>, now: nat)
    requires lists != []
  {
    forall h: Hash, t: nat :: |h| == 8 && t >= now ==>
      Lookup(lists[HashIndex(h, |lists|)], h, t) == Newest(accepted, h, t)
  }

  // ---- Value-level steps ----

  /** Entry `ids[k]` of list `who` moves to the front of the free list. */
  lemma {:induction false} OwnsAfterRemoval(owner: seq<int>, who: int, ids: seq<nat>, k: nat)
    requires Owns(owner, who, ids) && k < |ids| && who != FREE
    ensures Owns(owner[ids[k] := FREE], who, Without(ids, k))
  {
    var rest := Without(ids, k);
    forall i | 0 <= i < |owner| && owner[ids[k] := FREE][i] == who
      ensures i in rest
    {
      var j :| 0 <= j < |ids| && ids[j] == i;
      assert rest[if j < k then j else j - 1] == i;
    }
  }

  lemma {:induction false} OwnsAfterPush(owner: seq<int>, who: int, ids: seq<nat>, x: nat)
    requires Owns(owner, who, ids) && x < |owner| && owner[x] != who
    ensures Owns(owner[x := who], who, [x] + ids)
  {
    var more := [x] + ids;
    assert forall k :: 0 < k < |more| ==> more[k] == ids[k - 1];
    forall i | 0 <= i < |owner| && owner[x := who][i] == who
      ensures i in more
    {
      if i == x {
        assert more[0] == i;
      } else {
        var j :| 0 <= j < |ids| && ids[j] == i;
        assert more[j + 1] == i;
      }
    }
  }

  /** Unlinking the entry at position `k`: its predecessor, or the head, skips it. */
  lemma {:induction false} ListAfterUnlink(es: seq<Entry>, head: int, ids: seq<nat>, k: nat, es': seq<Entry>, head': int)
    requires IsList(es, head, ids) && Distinct(ids) && k < |ids| && |es'| == |es|
    requires head' == if k == 0 then es[ids[0]].next else head
    requires forall j :: 0 <= j < |ids| && j != k && j != k - 1 ==> es'[ids[j]] == es[ids[j]]
    requires k > 0 ==> es'[ids[k - 1]].next == es[ids[k]].next
    ensures IsList(es', head', Without(ids, k))
  {
    hide Distinct, Without;
    var rest := Without(ids, k);
    WithoutAll(ids, k);
    assert es[ids[k]].next == Follower(ids, k);
    forall j | 0 <= j < |rest|
      ensures rest[j] < |es'| && es'[rest[j]].next == Follower(rest, j)
    {
      FollowerWithout(ids, k, j);
      if j < k {
        assert es[ids[j]].next == Follower(ids, j);
      } else {
        assert es[ids[j + 1]].next == Follower(ids, j + 1);
      }
    }
  }

  lemma {:induction false} WithoutAll(ids: seq<nat>, k: nat)
    requires k < |ids|
    ensures var rest := Without(ids, k);
            |rest| == |ids| - 1 && forall j :: 0 <= j < |rest| ==> rest[j] == ids[if j < k then j else j + 1]
  {
  }

  lemma {:induction false} FollowerWithout(ids: seq<nat>, k: nat, j: nat)
    requires k < |ids| && j < |ids| - 1
    ensures var rest := Without(ids, k);
            |rest| == |ids| - 1
            && Follower(rest, j) == Follower(ids, if j + 1 == k then k else if j < k then j else j + 1)
  {
    WithoutAll(ids, k);
  }

  lemma {:induction false} ListFrame(es: seq<Entry>, es': seq<Entry>, head: int, ids: seq<nat>)
    requires IsList(es, head, ids) && |es'| == |es|
    requires forall k :: 0 <= k < |ids| ==> es'[ids[k]] == es[ids[k]]
    ensures IsList(es', head, ids)
  {
    forall k | 0 <= k < |ids|
      ensures es'[ids[k]].next == Follower(ids, k)
    {
      assert es[ids[k]].next == Follower(ids, k);
    }
  }

  lemma {:induction false} ListAfterPush(es: seq<Entry>, es': seq<Entry>, head: int, ids: seq<nat>, x: nat)
    requires IsList(es, head, ids) && |es'| == |es| && x < |es|
    requires forall k :: 0 <= k < |ids| ==> es'[ids[k]] == es[ids[k]]
    requires es'[x].next == head
    ensures IsList(es', x, [x] + ids)
  {
    var more := [x] + ids;
    forall k | 0 <= k < |more|
      ensures more[k] < |es'| && es'[more[k]].next == Follower(more, k)
    {
      if k > 0 { assert es[ids[k - 1]].next == Follower(ids, k - 1); }
    }
  }

  /** Lists of different owners have no entry in common. */
  lemma {:induction false} Apart(owner: seq<int>, a: int, as_: seq<nat>, b: int, bs: seq<nat>, i: nat, j: nat)
    requires Owns(owner, a, as_) && Owns(owner, b, bs) && a != b && i < |as_| && j < |bs|
    ensures as_[i] != bs[j]
  {
    assert owner[as_[i]] == a && owner[bs[j]] == b;
  }

  // ---- Removing an entry ----

  /** The entries after entry `k` of the list `ids` has been unlinked and put before `empty`. */
  function Unlinked(es: seq<Entry>, ids: seq<nat>, k: nat, empty: int): (r: seq<Entry>)
    requires k < |ids| && forall j :: 0 <= j < |ids| ==> ids[j] < |es|
    ensures |r| == |es|
  {
    var skipped := if k == 0 then es else es[ids[k - 1] := es[ids[k - 1]].(next := es[ids[k]].next)];
    skipped[ids[k] := skipped[ids[k]].(expires := 0, next := empty)]
  }

  lemma {:induction false} UnlinkedList(es: seq<Entry>, head: int, ids: seq<nat>, k: nat, empty: int)
    requires IsList(es, head, ids) && Distinct(ids) && k < |ids|
    ensures IsList(Unlinked(es, ids, k, empty), if k == 0 then es[ids[0]].next else head, Without(ids, k))
  {
    var es' := Unlinked(es, ids, k, empty);
    assert forall j :: 0 <= j < |ids| && j != k && j != k - 1 ==> ids[j] != ids[k] && (k > 0 ==> ids[j] != ids[k - 1]);
    ListAfterUnlink(es, head, ids, k, es', if k == 0 then es[ids[0]].next else head);
  }

  lemma {:induction false} UnlinkedItems(es: seq<Entry>, ids: seq<nat>, k: nat, empty: int, items: seq<Item>)
    requires Distinct(ids) && k < |ids| && SameItems(es, ids, items)
    ensures SameItems(Unlinked(es, ids, k, empty), Without(ids, k), Without(items, k))
  {
    var es', rest, kept := Unlinked(es, ids, k, empty), Without(ids, k), Without(items, k);
    forall j | 0 <= j < |rest|
      ensures rest[j] < |es'| && ItemOf(es'[rest[j]]) == kept[j]
    {
      var i := if j < k then j else j + 1;
      assert rest[j] == ids[i] && kept[j] == items[i] && ItemOf(es[ids[i]]) == items[i];
    }
  }

  /** Unlinking leaves lists of other owners alone. */
  lemma {:induction false} UnlinkedOther(es: seq<Entry>, ids: seq<nat>, k: nat, empty: int, owner: seq<int>, who: int, other: int, others: seq<nat>)
    requires Owns(owner, who, ids) && Owns(owner, other, others) && who != other && k < |ids|
    requires |owner| == |es|
    ensures var es' := Unlinked(es, ids, k, empty);
            forall j :: 0 <= j < |others| ==> es'[others[j]] == es[others[j]]
  {
    forall j | 0 <= j < |others|
      ensures Unlinked(es, ids, k, empty)[others[j]] == es[others[j]]
    {
      Apart(owner, other, others, who, ids, j, k);
      if k > 0 { Apart(owner, other, others, who, ids, j, k - 1); }
    }
  }

  lemma {:induction false} OwnsOther(owner: seq<int>, who: int, ids: seq<nat>, x: nat, other: int)
    requires Owns(owner, who, ids) && x < |owner| && owner[x] != who && other != who
    ensures Owns(owner[x := other], who, ids)
  {
  }

  /** A bucket none of whose entries changed, and none of whose entries changed owner. */
  lemma {:induction false} BucketFrame(es: seq<Entry>, es': seq<Entry>, head: int, ids: seq<nat>, items: seq<Item>,
                                       owner: seq<int>, b: int, x: nat, other: int)
    requires Bucket(es, head, ids, items, owner, b) && |es'| == |es|
    requires forall j :: 0 <= j < |ids| ==> es'[ids[j]] == es[ids[j]]
    requires x < |owner| && owner[x] != b && other != b
    ensures Bucket(es', head, ids, items, owner[x := other], b)
  {
    ListFrame(es, es', head, ids);
    OwnsOther(owner, b, ids, x, other);
  }

  lemma {:induction false} BucketAfterUnlink(es: seq<Entry>, head: int, ids: seq<nat>, items: seq<Item>,
                                             owner: seq<int>, b: int, k: nat, empty: int)
    requires Bucket(es, head, ids, items, owner, b) && k < |ids| && b != FREE
    ensures Bucket(Unlinked(es, ids, k, empty), if k == 0 then es[ids[0]].next else head,
                   Without(ids, k), Without(items, k), owner[ids[k] := FREE], b)
  {
    UnlinkedList(es, head, ids, k, empty);
    UnlinkedItems(es, ids, k, empty, items);
    OwnsAfterRemoval(owner, b, ids, k);
  }

  lemma {:induction false} FreeAfterUnlink(es: seq<Entry>, ids: seq<nat>, owner: seq<int>, b: int, k: nat, empty: int, free: seq<nat>)
    requires Owns(owner, b, ids) && k < |ids| && b != FREE && |owner| == |es|
    requires IsList(es, empty, free) && Owns(owner, FREE, free)
    ensures IsList(Unlinked(es, ids, k, empty), ids[k], [ids[k]] + free)
    ensures Owns(owner[ids[k] := FREE], FREE, [ids[k]] + free)
  {
    UnlinkedOther(es, ids, k, empty, owner, b, FREE, free);
    ListAfterPush(es, Unlinked(es, ids, k, empty), empty, free, ids[k]);
    assert owner[ids[k]] == b;
    OwnsAfterPush(owner, FREE, free, ids[k]);
  }

  lemma {:induction false} OtherAfterUnlink(es: seq<Entry>, ids: seq<nat>, owner: seq<int>, b: int, k: nat, empty: int,
                                            c: int, head: int, others: seq<nat>, items: seq<Item>)
    requires Owns(owner, b, ids) && k < |ids| && b != FREE && |owner| == |es| && b != c && c != FREE
    requires Bucket(es, head, others, items, owner, c)
    ensures Bucket(Unlinked(es, ids, k, empty), head, others, items, owner[ids[k] := FREE], c)
  {
    UnlinkedOther(es, ids, k, empty, owner, b, c, others);
    assert owner[ids[k]] == b;
    BucketFrame(es, Unlinked(es, ids, k, empty), head, others, items, owner, c, ids[k], FREE);
  }

  lemma {:induction false} ShapeAfterUnlink(es: seq<Entry>, table: seq<int>, empty: int,
      free: seq<nat>, chains: seq<seq<nat>>, lists: seq<seq<Item>>, owner: seq<int>, b: nat, k: nat)
    requires Shape(es, table, empty, free, chains, lists, owner)
    requires b < |chains| && k < |chains[b]|
    ensures var x := chains[b][k];
            && x < |es|
            && Shape(Unlinked(es, chains[b], k, empty), if k == 0 then table[b := es[x].next] else table, x,
                     [x] + free, chains[b := Without(chains[b], k)], lists[b := Without(lists[b], k)], owner[x := FREE])
  {
    hide Bucket, IsList, Owns, SameItems, Unlinked, Without;
    BucketParts(es, table[b], chains[b], lists[b], owner, b);
    BucketAfterUnlink(es, table[b], chains[b], lists[b], owner, b, k, empty);
    FreeAfterUnlink(es, chains[b], owner, b, k, empty, free);
    forall c | 0 <= c < |table| && c != b
      ensures Bucket(Unlinked(es, chains[b], k, empty), table[c], chains[c], lists[c], owner[chains[b][k] := FREE], c)
    {
      OtherAfterUnlink(es, chains[b], owner, b, k, empty, c, table[c], chains[c], lists[c]);
    }
  }

  lemma {:induction false} BucketParts(es: seq<Entry>, head: int, ids: seq<nat>, items: seq<Item>, owner: seq<int>, b: int)
    requires Bucket(es, head, ids, items, owner, b)
    ensures Owns(owner, b, ids) && |items| == |ids| && forall j :: 0 <= j < |ids| ==> ids[j] < |es|
    ensures ids != [] ==> head == ids[0]
  {
  }

  // ---- Inserting an entry ----

  lemma {:induction false} InsertedOther(es: seq<Entry>, free: seq<nat>, owner: seq<int>, c: int, ids: seq<nat>, e: Entry)
    requires Owns(owner, FREE, free) && Owns(owner, c, ids) && c != FREE && free != [] && |es| == |owner|
    ensures forall j :: 0 <= j < |ids| ==> es[free[0] := e][ids[j]] == es[ids[j]]
  {
    forall j | 0 <= j < |ids|
      ensures es[free[0] := e][ids[j]] == es[ids[j]]
    {
      Apart(owner, c, ids, FREE, free, j, 0);
    }
  }

  lemma {:induction false} BucketAfterInsert(es: seq<Entry>, head: int, ids: seq<nat>, items: seq<Item>, owner: seq<int>,
                                             b: int, free: seq<nat>, item: Item)
    requires Bucket(es, head, ids, items, owner, b) && Owns(owner, FREE, free) && free != [] && b != FREE
    requires |es| == |owner|
    ensures var x := free[0];
            Bucket(es[x := Entry(item.hash, item.value, item.expires, head)], x, [x] + ids, [item] + items, owner[x := b], b)
  {
    var x := free[0];
    var e := Entry(item.hash, item.value, item.expires, head);
    var es' := es[x := e];
    InsertedOther(es, free, owner, b, ids, e);
    ListAfterPush(es, es', head, ids, x);
    OwnsAfterPush(owner, b, ids, x);
    var more, all := [x] + ids, [item] + items;
    forall k | 0 <= k < |more|
      ensures more[k] < |es'| && ItemOf(es'[more[k]]) == all[k]
    {
      if k > 0 { assert ItemOf(es[ids[k - 1]]) == items[k - 1]; }
    }
  }

  /** Entry `x`, the head of the free list, becomes the head of bucket `b`. */
  lemma {:induction false} ShapeAfterInsert(es: seq<Entry>, table: seq<int>, empty: int,
      free: seq<nat>, chains: seq<seq<nat>>, lists: seq<seq<Item>>, owner: seq<int>, b: nat, item: Item)
    requires Shape(es, table, empty, free, chains, lists, owner)
    requires b < |chains| && free != []
    ensures var x := free[0];
            && x < |es|
            && Shape(es[x := Entry(item.hash, item.value, item.expires, table[b])], table[b := x], es[x].next,
                     free[1..], chains[b := [x] + chains[b]], lists[b := [item] + lists[b]], owner[x := b])
  {
    var x := free[0];
    var e := Entry(item.hash, item.value, item.expires, table[b]);
    var es' := es[x := e];
    assert IsList(es', es[x].next, free[1..]) && Owns(owner[x := b], FREE, free[1..]) by {
      assert Without(free, 0) == free[1..];
      ListAfterUnlink(es, empty, free, 0, es', es[x].next);
      FreeShrinks(owner, free, b);
    }
    assert owner[x] == FREE;
    assert Bucket(es, table[b], chains[b], lists[b], owner, b);
    BucketAfterInsert(es, table[b], chains[b], lists[b], owner, b, free, item);
    forall c | 0 <= c < |table| && c != b
      ensures Bucket(es', table[c], chains[c], lists[c], owner[x := b], c)
    {
      assert Bucket(es, table[c], chains[c], lists[c], owner, c);
      InsertedOther(es, free, owner, c, chains[c], e);
      BucketFrame(es, es', table[c], chains[c], lists[c], owner, c, x, b);
    }
    hide Bucket, IsList, Owns, SameItems;
  }

  lemma {:induction false} FreeShrinks(owner: seq<int>, free: seq<nat>, b: nat)
    requires Owns(owner, FREE, free) && free != []
    ensures Owns(owner[free[0] := b], FREE, free[1..])
  {
    var x := free[0];
    forall i | 0 <= i < |owner| && owner[x := b][i] == FREE
      ensures i in free[1..]
    {
      var j :| 0 <= j < |free| && free[j] == i;
      assert free[1..][j - 1] == i;
    }
  }

  // ---- Answers ----

  /** An accepted entry at the head of its chain is the newest of its hash. */
  lemma {:induction false} AnswersAfterInsert(lists: seq<seq<Item>>, accepted: seq<Item>, now: nat, item: Item)
    requires lists != [] && Answers(lists, accepted, now) && |item.hash| == 8
    ensures var b := HashIndex(item.hash, |lists|);
            Answers(lists[b := [item] + lists[b]], accepted + [item], now)
  {
    var b := HashIndex(item.hash, |lists|);
    var lists' := lists[b := [item] + lists[b]];
    assert (accepted + [item])[..|accepted|] == accepted;
    forall h: Hash, t: nat | |h| == 8 && t >= now
      ensures Lookup(lists'[HashIndex(h, |lists|)], h, t) == Newest(accepted + [item], h, t)
    {
      assert ([item] + lists[b])[1..] == lists[b];
      assert Lookup(lists[HashIndex(h, |lists|)], h, t) == Newest(accepted, h, t);
    }
  }

  /** Dropping an entry that has expired changes no answer from then on. */
  lemma {:induction false} AnswersAfterUnlink(lists: seq<seq<Item>>, accepted: seq<Item>, now: nat, b: nat, k: nat)
    requires lists != [] && Answers(lists, accepted, now)
    requires b < |lists| && k < |lists[b]| && lists[b][k].expires < now
    ensures Answers(lists[b := Without(lists[b], k)], accepted, now)
  {
    var lists' := lists[b := Without(lists[b], k)];
    forall h: Hash, t: nat | |h| == 8 && t >= now
      ensures Lookup(lists'[HashIndex(h, |lists|)], h, t) == Newest(accepted, h, t)
    {
      DropExpired(lists[b], k, h, t);
      assert Lookup(lists[HashIndex(h, |lists|)], h, t) == Newest(accepted, h, t);
    }
  }

  lemma {:induction false} OneHashAfterUnlink(lists: seq<seq<Item>>, b: nat, k: nat)
    requires OneHash(lists) && b < |lists| && k < |lists[b]|
    ensures OneHash(lists[b := Without(lists[b], k)])
  {
    var rest := Without(lists[b], k);
    assert forall j :: 0 <= j < |rest| ==> rest[j] == lists[b][if j < k then j else j + 1];
  }

  lemma {:induction false} OneHashAfterInsert(lists: seq<seq<Item>>, item: Item)
    requires lists != [] && OneHash(lists) && |item.hash| == 8
    requires var b := HashIndex(item.hash, |lists|); lists[b] == [] || lists[b][0].hash == item.hash
    ensures var b := HashIndex(item.hash, |lists|); OneHash(lists[b := [item] + lists[b]])
  {
  }

  /** Overwriting the head of the free list without moving it. */
  lemma {:induction false} ShapeAfterReject(es: seq<Entry>, table: seq<int>, empty: int,
      free: seq<nat>, chains: seq<seq<nat>>, lists: seq<seq<Item>>, owner: seq<int>, e: Entry)
    requires Shape(es, table, empty, free, chains, lists, owner) && free != []
    requires e.next == es[free[0]].next
    ensures Shape(es[free[0] := e], table, empty, free, chains, lists, owner)
  {
    var x := free[0];
    forall k | 0 <= k < |free|
      ensures es[x := e][free[k]].next == Follower(free, k)
    {
      assert es[free[k]].next == Follower(free, k);
    }
    forall c | 0 <= c < |table|
      ensures Bucket(es[x := e], table[c], chains[c], lists[c], owner, c)
    {
      assert Bucket(es, table[c], chains[c], lists[c], owner, c);
      InsertedOther(es, free, owner, c, chains[c], e);
      assert owner[x] == FREE && owner[x := FREE] == owner;
      BucketFrame(es, es[x := e], table[c], chains[c], lists[c], owner, c, x, FREE);
    }
    hide Bucket, Owns, SameItems;
  }

  /** A new array: all entries on the free list, all chains empty. */
  lemma {:induction false} ShapeAtStart(es: seq<Entry>, table: seq<int>)
    requires es != [] && forall i :: 0 <= i < |es| ==> es[i].next == if i + 1 < |es| then i + 1 else NULL
    requires forall b :: 0 <= b < |table| ==> table[b] == NULL
    ensures Shape(es, table, 0, seq(|es|, i => i), seq(|table|, _ => []), seq(|table|, _ => []), seq(|es|, _ => FREE))
  {
    var free, owner := seq(|es|, i => i), seq(|es|, _ => FREE);
    assert IsList(es, 0, free);
    forall i | 0 <= i < |owner|
      ensures i in free
    {
      assert free[i] == i;
    }
    forall b | 0 <= b < |table|
      ensures Bucket(es, table[b], [], [], owner, b)
    {
    }
  }

  lemma {:induction false} NothingStored(buckets: nat, now: nat)
    requires buckets > 0
    ensures OneHash(seq(buckets, _ => [])) && Answers(seq(buckets, _ => []), [], now)
  {
  }

  class Cache {
    var table: array?<int>        // hashtable
    var values: array?<Entry>     // hashvalues
    var empty: int                // hashempty
    ghost var free: seq<nat>
    ghost var chains: seq<seq<nat>>
    ghost var lists: seq<seq<Item>>
    ghost var owner: seq<int>
    /** Every entry a call has accepted since the last initialization, oldest first. */
    ghost var accepted: seq<Item>
    /** The latest time a lookup has been made at. */
    ghost var now: nat

    ghost predicate Linked()
      reads this, table, values
    {
      && table != null && values != null && 0 < table.Length == values.Length / 4
      && |chains| == |lists| == table.Length && |owner| == values.Length
      && Shape(values[..], table[..], empty, free, chains, lists, owner)
    }

    ghost predicate Valid()
      reads this, table, values
    {
      if table == null then values == null else Linked() && OneHash(lists) && Answers(lists, accepted, now)
    }

    ghost function View(): Store reads this { Store(|free|, lists) }

    ghost function Current(): Option<Store> reads this { if table == null then None else Some(View()) }

    /** The newest unexpired accepted value for a name, as the cache should answer at time `t`. */
    ghost function Expected(name: seq<byte>, t: nat): nat
      reads this
    {
      if table == null then 0 else Newest(accepted, HashOf(name, |name|), t)
    }

    constructor ()
      ensures Valid() && table == null && now == 0
    {
      table, values, empty, now := null, null, NULL, 0;
    }

    /** inithashtable. The flags say whether the two allocations succeed. */
    method Init(size: nat, tableAllocated: bool, valuesAllocated: bool) returns (code: nat)
      requires Valid()
      modifies this
      ensures Valid() && now == old(now)
      ensures code == if size < 4 then 1 else if !tableAllocated then 2 else if !valuesAllocated then 3 else 0
      ensures code == 0 ==> table != null && values != null && fresh(table) && fresh(values) && values.Length == size && table.Length == size / 4 && View() == EmptyStore(size) && accepted == []
      ensures code == 1 ==> unchanged(this)
      ensures code > 1 ==> table == null
    {
      if size < 4 { return 1; }
      table, values := null, null;
      if !tableAllocated { return 2; }
      if !valuesAllocated { return 3; }
      Fill(size);
      return 0;
    }

    method Fill(size: nat)
      requires size >= 4
      modifies this
      ensures Valid() && now == old(now)
      ensures table != null && values != null && fresh(table) && fresh(values)
      ensures values.Length == size && View() == EmptyStore(size) && accepted == []
    {
      hide Shape, Answers, OneHash;
      table := new int[size / 4](_ => NULL);
      values := new Entry[size](_ => Blank);
      Thread();
      empty := 0;
      ShapeAtStart(values[..], table[..]);
      NothingStored(size / 4, now);
      free, owner := seq(size, i => i), seq(size, _ => FREE);
      chains, lists, accepted := seq(size / 4, _ => []), seq(size / 4, _ => []), [];
    }

    /** Threads all entries into one list. */
    method Thread()
      requires values != null && values.Length > 0
      requires forall k :: 0 <= k < values.Length ==> values[k].next == NULL
      modifies values
      ensures forall k :: 0 <= k < values.Length ==> values[k].next == if k + 1 < values.Length then k + 1 else NULL
    {
      var i := 0;
      while i < values.Length - 1
        invariant 0 <= i <= values.Length - 1
        invariant forall k :: 0 <= k < i ==> values[k].next == k + 1
        invariant forall k :: i <= k < values.Length ==> values[k].next == NULL
      {
        values[i] := values[i].(next := i + 1);
        i := i + 1;
      }
    }

    /** hashadd */
    method Add(name: Option<seq<byte>>, value: nat, expires: nat)
      requires Valid()
      modifies this, table, values
      ensures Valid() && now == old(now) && table == old(table) && values == old(values)
      ensures name.None? || table == null ==> accepted == old(accepted) && View() == old(View())
      ensures table != null ==> |old(lists)| > 0
      ensures name.Some? && table != null ==>
        var item := Item(HashOf(name.value, |name.value|), value, expires);
        && View() == AddTo(old(View()), item)
        && accepted == old(accepted) + if Accepts(old(View()), item) then [item] else []
    {
      if value == 0 || name.None? || table == null || empty == NULL { return; }
      var he := empty;
      var next := values[he].next;
      var hash := NameToHash(name.value);
      var index := HashIndex(hash, table.Length);
      assert Bucket(values[..], table[..][index], chains[index], lists[index], owner, index);
      if table[index] == NULL || values[table[index]].hash == hash {
        Insert(he, index, Item(hash, value, expires));
      } else {
        ShapeAfterReject(values[..], table[..], empty, free, chains, lists, owner, Blank.(next := next));
        values[he] := Blank.(next := next);
        empty := he;
      }
    }

    /** What the structure is after an insertion. */
    lemma {:induction false} InsertSound(index: nat, item: Item)
      requires Valid() && table != null && free != [] && |item.hash| == 8
      requires index == HashIndex(item.hash, table.Length)
      requires lists[index] == [] || lists[index][0].hash == item.hash
      ensures Linked() && free[0] == empty && free[0] < values.Length
      ensures var x := free[0];
              Shape(values[..][x := Entry(item.hash, item.value, item.expires, table[index])], table[..][index := x], values[x].next,
                    free[1..], chains[index := [x] + chains[index]], lists[index := [item] + lists[index]], owner[x := index])
      ensures OneHash(lists[index := [item] + lists[index]])
      ensures Answers(lists[index := [item] + lists[index]], accepted + [item], now)
    {
      assert IsList(values[..], empty, free);
      ShapeAfterInsert(values[..], table[..], empty, free, chains, lists, owner, index, item);
      OneHashAfterInsert(lists, item);
      AnswersAfterInsert(lists, accepted, now, item);
    }

    /** Moves the head of the free list, filled in, to the front of its bucket. */
    method Insert(he: nat, index: nat, item: Item)
      requires Valid() && table != null && free != [] && he == empty && |item.hash| == 8
      requires index == HashIndex(item.hash, table.Length)
      requires lists[index] == [] || lists[index][0].hash == item.hash
      modifies this, table, values
      ensures Valid() && now == old(now) && table == old(table) && values == old(values)
      ensures accepted == old(accepted) + [item]
      ensures View() == Store(old(|free|) - 1, old(lists)[index := [item] + old(lists[index])])
    {
      hide Shape, Answers, OneHash, IsList;
      InsertSound(index, item);
      empty := values[he].next;
      values[he] := Entry(item.hash, item.value, item.expires, table[index]);
      table[index] := he;
      free, chains, lists, owner := free[1..], chains[index := [he] + chains[index]],
                                    lists[index := [item] + lists[index]], owner[he := index];
      accepted := accepted + [item];
    }

    /** The writes that unlink entry `he` at position `k` of the list `ids`. */
    method Relink(index: nat, prev: int, he: nat, ghost ids: seq<nat>, ghost k: nat)
      requires table != null && values != null && index < table.Length
      requires k < |ids| && (forall j :: 0 <= j < |ids| ==> ids[j] < values.Length) && Distinct(ids)
      requires he == ids[k] && prev == if k == 0 then NULL else ids[k - 1]
      modifies this`empty, table, values
      ensures empty == he && values[..] == Unlinked(old(values[..]), ids, k, old(empty))
      ensures table[..] == if k == 0 then old(table[..])[index := old(values[he].next)] else old(table[..])
    {
      if prev == NULL {
        table[index] := values[he].next;
      } else {
        assert ids[k - 1] != ids[k];
        values[prev] := values[prev].(next := values[he].next);
      }
      values[he] := values[he].(expires := 0);
      values[he] := values[he].(next := empty);
      empty := he;
    }

    /** What the structure is after an unlink. */
    lemma {:induction false} UnlinkSound(index: nat, k: nat)
      requires Valid() && table != null && index < |lists| && k < |chains[index]|
      requires |lists[index]| == |chains[index]| && lists[index][k].expires < now
      ensures Linked() && Distinct(chains[index]) && forall j :: 0 <= j < |chains[index]| ==> chains[index][j] < values.Length
      ensures var x := chains[index][k];
              Shape(Unlinked(values[..], chains[index], k, empty), if k == 0 then table[..][index := values[x].next] else table[..], x,
                    [x] + free, chains[index := Without(chains[index], k)], lists[index := Without(lists[index], k)], owner[x := FREE])
      ensures OneHash(lists[index := Without(lists[index], k)])
      ensures Answers(lists[index := Without(lists[index], k)], accepted, now)
    {
      ShapeAfterUnlink(values[..], table[..], empty, free, chains, lists, owner, index, k);
      OneHashAfterUnlink(lists, index, k);
      AnswersAfterUnlink(lists, accepted, now, index, k);
      assert Bucket(values[..], table[..][index], chains[index], lists[index], owner, index);
    }

    /** Unlinks the entry at position `k` of a chain, whose predecessor is `prev`, and frees it. */
    method Unlink(index: nat, prev: int, he: nat, ghost k: nat)
      requires Valid() && table != null && index < |lists| && k < |chains[index]| && he == chains[index][k]
      requires prev == if k == 0 then NULL else chains[index][k - 1]
      requires |lists[index]| == |chains[index]| && lists[index][k].expires < now
      modifies this`empty, this`free, this`chains, this`lists, this`owner, table, values
      ensures Valid() && table != null && |free| == old(|free|) + 1
      ensures chains == old(chains)[index := Without(old(chains[index]), k)]
      ensures lists == old(lists)[index := Without(old(lists[index]), k)]
    {
      hide Shape, Answers, OneHash, Unlinked, Bucket, IsList, Without, Distinct;
      UnlinkSound(index, k);
      Relink(index, prev, he, chains[index], k);
      free, chains, lists, owner := [he] + free, chains[index := Without(chains[index], k)],
                                    lists[index := Without(lists[index], k)], owner[he := FREE];
    }

    /** What the array holds at position `k` of a chain. */
    lemma {:induction false} Position(index: nat, k: nat)
      requires Valid() && table != null && index < table.Length
      ensures values != null && |lists| == |chains| == table.Length
      ensures |lists[index]| == |chains[index]| && Distinct(chains[index])
      ensures table[index] == if chains[index] == [] then NULL else chains[index][0]
      ensures k < |chains[index]| ==>
        var he := chains[index][k];
        he < values.Length && ItemOf(values[he]) == lists[index][k] && values[he].next == Follower(chains[index], k)
    {
      assert Bucket(values[..], table[..][index], chains[index], lists[index], owner, index);
      assert table[..][index] == table[index];
      if k < |chains[index]| {
        assert ItemOf(values[..][chains[index][k]]) == lists[index][k];
      }
    }

    /** hashresolv at time `t`: expired entries met on the way are freed, and the answer is the newest
        accepted entry for the hash that has not expired, else 0. */
    method Resolve(name: Option<seq<byte>>, t: nat) returns (value: nat, ttl: nat)
      requires Valid() && t >= now
      modifies this, table, values
      ensures Valid() && accepted == old(accepted) && table == old(table) && values == old(values)
      ensures now == if table == null || name.None? then old(now) else t
      ensures value == if name.None? then 0 else old(Expected(name.value, t))
      ensures View() == if table == null || name.None? then old(View())
                        else assert |lists| > 0; SearchIn(old(View()), HashOf(name.value, |name.value|), t)
    {
      if table == null || name.None? { return 0, 0; }
      var hash := NameToHash(name.value);
      var index := HashIndex(hash, table.Length);
      now := t;
      value, ttl := Search(hash, index, t);
    }

    method Search(hash: Hash, index: nat, t: nat) returns (value: nat, ttl: nat)
      requires Valid() && table != null && |hash| == 8 && index == HashIndex(hash, table.Length) && t == now
      modifies this`empty, this`free, this`chains, this`lists, this`owner, table, values
      ensures Valid() && value == Newest(accepted, hash, t)
      ensures |old(lists)| == table.Length && View() == SearchIn(old(View()), hash, t)
    {
      hide Valid, Linked, Lookup, Newest, HashIndex, Searching, SearchIn;
      Position(index, 0);
      ghost var was := View();
      SearchStarts(was, index, hash, t);
      var prev, he := NULL, table[index];
      ghost var k := 0;
      while he != NULL
        invariant Valid() && table != null && values != null && index < table.Length == |lists| == |chains| && k <= |chains[index]|
        invariant he == if k < |chains[index]| then chains[index][k] else NULL
        invariant prev == if k == 0 then NULL else chains[index][..k][k - 1]
        invariant |lists[index]| == |chains[index]|
        invariant forall item :: item in lists[index][..k] ==> item.hash != hash
        invariant Searching(was, View(), index, k, hash, t)
        decreases |chains[index]| - k
      {
        Position(index, k);
        var next := values[he].next;
        if values[he].expires < t {
          SearchDrops(was, View(), index, k, hash, t);
          Prune(index, prev, he, k);
          he := next;
        } else if values[he].hash == hash {
          FoundAt(hash, index, t, k);
          SearchEnds(was, View(), index, k, hash, t);
          return values[he].value, values[he].expires - t;
        } else {
          assert lists[index][..k + 1] == lists[index][..k] + [lists[index][k]];
          SearchKeeps(was, View(), index, k, hash, t);
          prev, he, k := he, next, k + 1;
        }
      }
      FoundAt(hash, index, t, k);
      SearchEnds(was, View(), index, k, hash, t);
      return 0, 0;
    }

    /** Unlinks entry `he`, after which the chain goes on at the same position with what followed it. */
    method Prune(index: nat, prev: int, he: nat, ghost k: nat)
      requires Valid() && table != null && index < |lists| == |chains| && k < |chains[index]| && he == chains[index][k]
      requires prev == if k == 0 then NULL else chains[index][k - 1]
      requires |lists[index]| == |chains[index]| && lists[index][k].expires < now
      modifies this`empty, this`free, this`chains, this`lists, this`owner, table, values
      ensures Valid() && table != null && |lists| == |chains| == old(|lists|) && |free| == old(|free|) + 1
      ensures lists == old(lists)[index := Without(old(lists[index]), k)]
      ensures |lists[index]| == |chains[index]| == old(|chains[index]|) - 1
      ensures chains[index][..k] == old(chains[index])[..k] && lists[index][..k] == old(lists[index])[..k]
      ensures old(Follower(chains[index], k)) == if k < |chains[index]| then chains[index][k] else NULL
    {
      hide Valid, Linked;
      Unlink(index, prev, he, k);
    }

    /** The search has come to position `k` without a match: the answer is there, or there is none. */
    lemma {:induction false} FoundAt(hash: Hash, index: nat, t: nat, k: nat)
      requires Valid() && table != null && |hash| == 8 && index == HashIndex(hash, table.Length) && t >= now
      requires k <= |lists[index]| && forall item :: item in lists[index][..k] ==> item.hash != hash
      ensures k == |lists[index]| ==> Newest(accepted, hash, t) == 0
      ensures k < |lists[index]| && lists[index][k].hash == hash && lists[index][k].expires >= t ==>
                Newest(accepted, hash, t) == lists[index][k].value
    {
      assert Lookup(lists[index], hash, t) == Newest(accepted, hash, t);
      assert forall i :: 0 <= i < k ==> lists[index][i] in lists[index][..k];
      SkipOthers(lists[index], k, hash, t);
    }

  }

  // ---- Whole sessions ----

  /** In a well-formed structure every entry is on the free list or in exactly one chain, and no list
      visits an entry twice. */
  lemma {:induction false} EveryEntryInOneList(es: seq<Entry>, table: seq<int>, empty: int,
      free: seq<nat>, chains: seq<seq<nat>>, lists: seq<seq<Item>>, owner: seq<int>)
    requires Shape(es, table, empty, free, chains, lists, owner)
    ensures forall i :: 0 <= i < |es| ==> (i in free <==> owner[i] == FREE)
    ensures forall i, b :: 0 <= i < |es| && 0 <= b < |table| ==> (i in chains[b] <==> owner[i] == b)
    ensures Distinct(free) && forall b :: 0 <= b < |table| ==> Distinct(chains[b])
  {
    forall i, b | 0 <= i < |es| && 0 <= b < |table|
      ensures i in chains[b] <==> owner[i] == b
    {
      assert Bucket(es, table[b], chains[b], lists[b], owner, b);
    }
    forall b | 0 <= b < |table|
      ensures Distinct(chains[b])
    {
      assert Bucket(es, table[b], chains[b], lists[b], owner, b);
    }
  }

  /** A call of the cache's interface: inithashtable with the outcome of its allocations, hashadd, or
      hashresolv `delay` after the lookup before it. */
  datatype Call =
    | Renew(size: nat, tableAllocated: bool, valuesAllocated: bool)
    | Remember(name: seq<byte>, value: nat, expires: nat)
    | Ask(name: seq<byte>, delay: nat)

  function TimeAfter(calls: seq<Call>): nat {
    if calls == [] then 0 else
    var last := calls[|calls| - 1];
    TimeAfter(calls[..|calls| - 1]) + if last.Ask? then last.delay else 0
  }

  function ItemFor(name: seq<byte>, value: nat, expires: nat): (item: Item)
    ensures |item.hash| == 8
  {
    Item(HashOf(name, |name|), value, expires)
  }

  /** Room and buckets after a session that starts before the first initialization; None: no table. */
  function StoreAfter(calls: seq<Call>): (o: Option<Store>)
    ensures o.Some? ==> |o.value.buckets| > 0
  {
    if calls == [] then None else
    var o := StoreAfter(calls[..|calls| - 1]);
    match calls[|calls| - 1]
    case Renew(size, table, values) =>
      if size < 4 then o else if table && values then Some(EmptyStore(size)) else None
    case Remember(name, value, expires) =>
      if o.None? then None else Some(AddTo(o.value, ItemFor(name, value, expires)))
    case Ask(name, _) =>
      if o.None? then None else Some(SearchIn(o.value, HashOf(name, |name|), TimeAfter(calls)))
  }

  /** The entries accepted since the last initialization, oldest first. */
  function AcceptedBy(calls: seq<Call>): seq<Item> {
    if calls == [] then [] else
    var n := |calls| - 1;
    var earlier := AcceptedBy(calls[..n]);
    match calls[n]
    case Renew(size, _, _) => if size < 4 then earlier else []
    case Remember(name, value, expires) =>
      var o, item := StoreAfter(calls[..n]), ItemFor(name, value, expires);
      if o.Some? && Accepts(o.value, item) then earlier + [item] else earlier
    case Ask(_, _) => earlier
  }

  /** What a lookup of the same name would give after an insertion: the new value if it is not 0, an entry is
      free and the bucket is empty or holds this hash, until it expires; else what it would have given before. */
  lemma {:induction false} RememberThenAsk(calls: seq<Call>, name: seq<byte>, value: nat, expires: nat, t: nat)
    requires StoreAfter(calls).Some?
    ensures var s, h := StoreAfter(calls).value, HashOf(name, |name|);
            var bucket := s.buckets[HashIndex(h, |s.buckets|)];
            Newest(AcceptedBy(calls + [Remember(name, value, expires)]), h, t)
            == if value != 0 && s.room > 0 && (bucket == [] || bucket[0].hash == h) && expires >= t then value
               else Newest(AcceptedBy(calls), h, t)
  {
    hide HashOf, HashIndex, StoreAfter;
    assert (calls + [Remember(name, value, expires)])[..|calls|] == calls;
    var earlier, item := AcceptedBy(calls), ItemFor(name, value, expires);
    assert (earlier + [item])[..|earlier|] == earlier;
  }

  /** The size given to the last initialization that did anything. */
  function SizeAfter(calls: seq<Call>): nat {
    if calls == [] then 0 else
    var last, earlier := calls[|calls| - 1], SizeAfter(calls[..|calls| - 1]);
    if last.Renew? && last.size >= 4 then last.size else earlier
  }

  /** No entry is ever lost: free ones and those in buckets always add up to the size of the array. */
  lemma {:induction false} NoEntryIsLost(calls: seq<Call>)
    ensures var o := StoreAfter(calls); o.Some? ==> o.value.room + InUse(o.value.buckets) == SizeAfter(calls)
  {
    hide HashOf, HashIndex, Pruned, InUse, TimeAfter;
    if calls != [] {
      var n := |calls| - 1;
      NoEntryIsLost(calls[..n]);
      var o := StoreAfter(calls[..n]);
      match calls[n]
      case Renew(size, _, _) =>
        NoneInUse(EmptyStore(size).buckets);
      case Remember(name, value, expires) =>
        if o.Some? { AddLosesNothing(o.value, ItemFor(name, value, expires)); }
      case Ask(name, _) =>
        if o.Some? { SearchLosesNothing(o.value, HashOf(name, |name|), TimeAfter(calls)); }
    }
  }

  lemma {:induction false} AddLosesNothing(s: Store, item: Item)
    requires |s.buckets| > 0 && |item.hash| == 8
    ensures var t := AddTo(s, item); t.room + InUse(t.buckets) == s.room + InUse(s.buckets)
  {
    hide HashIndex, InUse;
    var b := HashIndex(item.hash, |s.buckets|);
    InUseAfter(s.buckets, b, [item] + s.buckets[b]);
  }

  lemma {:induction false} SearchLosesNothing(s: Store, h: Hash, t: nat)
    requires |s.buckets| > 0 && |h| == 8
    ensures var u := SearchIn(s, h, t); u.room + InUse(u.buckets) == s.room + InUse(s.buckets)
  {
    hide HashIndex, InUse, Pruned;
    var b := HashIndex(h, |s.buckets|);
    InUseAfter(s.buckets, b, Pruned(s.buckets[b], h, t));
  }

  /** Every lookup was answered with the newest accepted value for its hash that had not expired. */
  predicate AnsweredRight(calls: seq<Call>, answers: seq<nat>)
    requires |calls| == |answers|
  {
    calls == [] ||
    var n := |calls| - 1;
    && AnsweredRight(calls[..n], answers[..n])
    && (calls[n].Ask? ==>
          answers[n] == Newest(AcceptedBy(calls[..n]), HashOf(calls[n].name, |calls[n].name|), TimeAfter(calls)))
  }

  /** The state of a session in step with its history. */
  ghost predicate InStep(o: Option<Store>, accepted: seq<Item>, now: nat, calls: seq<Call>, answers: seq<nat>) {
    && |calls| == |answers| && o == StoreAfter(calls) && now <= TimeAfter(calls)
    && AcceptedBy(calls) == (if o.None? then [] else accepted)
    && AnsweredRight(calls, answers)
  }

  lemma {:induction false} StartsInStep(accepted: seq<Item>)
    ensures InStep(None, accepted, 0, [], [])
  {
  }

  lemma {:induction false} InStepSays(o: Option<Store>, accepted: seq<Item>, now: nat, calls: seq<Call>, answers: seq<nat>)
    requires InStep(o, accepted, now, calls, answers)
    ensures |calls| == |answers| && AnsweredRight(calls, answers) && now <= TimeAfter(calls)
    ensures o.Some? ==> |o.value.buckets| > 0
  {
  }

  /** Calls that are no lookups may be answered in any way. */
  lemma {:induction false} AnsweredOther(calls: seq<Call>, answers: seq<nat>, call: Call, answer: nat)
    requires |calls| == |answers| && AnsweredRight(calls, answers) && !call.Ask?
    ensures AnsweredRight(calls + [call], answers + [answer]) && TimeAfter(calls + [call]) == TimeAfter(calls)
  {
    hide HashOf, Newest, AcceptedBy;
    assert (calls + [call])[..|calls|] == calls && (answers + [answer])[..|calls|] == answers;
  }

  lemma {:induction false} OneMoreRenew(o: Option<Store>, accepted: seq<Item>, accepted': seq<Item>, now: nat,
                                        calls: seq<Call>, answers: seq<nat>, call: Call)
    requires InStep(o, accepted, now, calls, answers) && call.Renew?
    requires if call.size < 4 then accepted' == accepted
             else call.tableAllocated && call.valuesAllocated ==> accepted' == []
    ensures var o' := if call.size < 4 then o
                      else if call.tableAllocated && call.valuesAllocated then Some(EmptyStore(call.size)) else None;
            InStep(o', accepted', now, calls + [call], answers + [0])
  {
    hide HashOf, TimeAfter, AnsweredRight, EmptyStore, AddTo, SearchIn, Accepts;
    AnsweredOther(calls, answers, call, 0);
    assert (calls + [call])[..|calls|] == calls;
  }

  lemma {:induction false} OneMoreRemember(o: Option<Store>, accepted: seq<Item>, now: nat, calls: seq<Call>, answers: seq<nat>,
                                           name: seq<byte>, value: nat, expires: nat)
    requires InStep(o, accepted, now, calls, answers) && (o.Some? ==> |o.value.buckets| > 0)
    ensures var item := ItemFor(name, value, expires);
            InStep(if o.None? then None else Some(AddTo(o.value, item)),
                   accepted + if o.Some? && Accepts(o.value, item) then [item] else [], now,
                   calls + [Remember(name, value, expires)], answers + [0])
  {
    hide HashOf, AddTo, Accepts, TimeAfter, AnsweredRight, SearchIn;
    var call := Remember(name, value, expires);
    AnsweredOther(calls, answers, call, 0);
    assert (calls + [call])[..|calls|] == calls;
    assert accepted + [] == accepted;
  }

  lemma {:induction false} OneMoreAsk(o: Option<Store>, accepted: seq<Item>, now: nat, calls: seq<Call>, answers: seq<nat>,
                                      name: seq<byte>, delay: nat, now': nat)
    requires InStep(o, accepted, now, calls, answers) && (o.Some? ==> |o.value.buckets| > 0)
    requires now' <= TimeAfter(calls) + delay
    ensures var h, t := HashOf(name, |name|), TimeAfter(calls) + delay;
            InStep(if o.None? then None else Some(SearchIn(o.value, h, t)), accepted, now',
                   calls + [Ask(name, delay)], answers + [if o.None? then 0 else Newest(accepted, h, t)])
  {
    hide HashOf, SearchIn, StoreAfter, AcceptedBy, TimeAfter, AnsweredRight;
    AfterAsk(calls, name, delay);
    AnsweredAsk(calls, answers, name, delay);
  }

  lemma {:induction false} AfterAsk(calls: seq<Call>, name: seq<byte>, delay: nat)
    ensures var more := calls + [Ask(name, delay)];
            && TimeAfter(more) == TimeAfter(calls) + delay && AcceptedBy(more) == AcceptedBy(calls)
            && StoreAfter(more) == if StoreAfter(calls).None? then None
                                   else Some(SearchIn(StoreAfter(calls).value, HashOf(name, |name|), TimeAfter(calls) + delay))
  {
    hide HashOf, SearchIn;
    assert (calls + [Ask(name, delay)])[..|calls|] == calls;
  }

  lemma {:induction false} AnsweredAsk(calls: seq<Call>, answers: seq<nat>, name: seq<byte>, delay: nat)
    requires |calls| == |answers| && AnsweredRight(calls, answers)
    ensures AnsweredRight(calls + [Ask(name, delay)],
                          answers + [Newest(AcceptedBy(calls), HashOf(name, |name|), TimeAfter(calls) + delay)])
  {
    hide HashOf, Newest, AcceptedBy;
    var answer := Newest(AcceptedBy(calls), HashOf(name, |name|), TimeAfter(calls) + delay);
    assert (calls + [Ask(name, delay)])[..|calls|] == calls && (answers + [answer])[..|calls|] == answers;
  }

  /** Whatever sequence of initializations, insertions and lookups a cache is put through, and however
      entries expire, are freed and are reused on the way, every lookup is answered right. */
  method Session(calls: seq<Call>) returns (answers: seq<nat>)
    ensures |calls| == |answers| && AnsweredRight(calls, answers)
  {
    hide InStep, Cache.Valid, Cache.View;
    var cache := new Cache();
    answers := [];
    ghost var done: seq<Call> := [];
    var i, clock := 0, 0;
    StartsInStep(cache.accepted);
    while i < |calls|
      invariant 0 <= i <= |calls| && done == calls[..i] && clock == TimeAfter(done)
      invariant cache.Valid() && fresh(cache)
      invariant (cache.table != null ==> fresh(cache.table)) && (cache.values != null ==> fresh(cache.values))
      invariant InStep(cache.Current(), cache.accepted, cache.now, done, answers)
    {
      var answer := Perform(cache, clock, calls[i], done, answers);
      TimeStep(done, calls[i]);
      if calls[i].Ask? { clock := clock + calls[i].delay; }
      done, answers := done + [calls[i]], answers + [answer];
      i := i + 1;
    }
    assert calls[..i] == calls;
    InStepSays(cache.Current(), cache.accepted, cache.now, calls, answers);
  }

  lemma {:induction false} TimeStep(calls: seq<Call>, call: Call)
    ensures TimeAfter(calls + [call]) == TimeAfter(calls) + if call.Ask? then call.delay else 0
  {
    assert (calls + [call])[..|calls|] == calls;
  }

  method Perform(cache: Cache, clock: nat, call: Call, ghost calls: seq<Call>, ghost answers: seq<nat>)
    returns (answer: nat)
    requires cache.Valid() && clock == TimeAfter(calls)
    requires InStep(cache.Current(), cache.accepted, cache.now, calls, answers)
    modifies cache, cache.table, cache.values
    ensures cache.Valid()
    ensures cache.table == null || cache.table == old(cache.table) || fresh(cache.table)
    ensures cache.values == null || cache.values == old(cache.values) || fresh(cache.values)
    ensures InStep(cache.Current(), cache.accepted, cache.now, calls + [call], answers + [answer])
  {
    hide Newest, HashOf, InStep, Cache.Valid, AddTo, SearchIn, Accepts, TimeAfter, EmptyStore;
    ghost var o, accepted, now := cache.Current(), cache.accepted, cache.now;
    InStepSays(o, accepted, now, calls, answers);
    match call
    case Renew(size, table, values) =>
      var code := cache.Init(size, table, values);
      answer := 0;
      OneMoreRenew(o, accepted, cache.accepted, now, calls, answers, call);
    case Remember(name, value, expires) =>
      cache.Add(Some(name), value, expires);
      answer := 0;
      OneMoreRemember(o, accepted, now, calls, answers, name, value, expires);
      assert accepted + [] == accepted;
    case Ask(name, delay) =>
      var ttl;
      answer, ttl := cache.Resolve(Some(name), clock + delay);
      OneMoreAsk(o, accepted, now, calls, answers, name, delay, cache.now);
  }
}
