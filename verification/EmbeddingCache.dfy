/** The query-embedding cache: an insertion-ordered dictionary kept in order of last use. */
module EmbeddingCaches {
  import opened Models

  type Vector = seq<real>

  /** The resolved model and the text. */
  datatype Key = Key(model: string, text: string)

  const MAX := 64

  /** The entries, and their keys in insertion order. */
  datatype Cache = Cache(order: seq<Key>, at: map<Key, Vector>)

  const EMPTY := Cache([], map[])

  function Without(order: seq<Key>, k: Key): seq<Key> {
    if order == [] then [] else
      var n := |order| - 1;
      Without(order[..n], k) + (if order[n] == k then [] else [order[n]])
  }

  function Pop(c: Cache, k: Key): Cache {
    Cache(Without(c.order, k), c.at - {k})
  }

  /** A key that is there keeps its place. */
  function Insert(c: Cache, k: Key, v: Vector): Cache {
    Cache(if k in c.at then c.order else c.order + [k], c.at[k := v])
  }

  /** A hit moves its key to the end. */
  function Touch(c: Cache, k: Key): Cache
    requires k in c.at
  {
    Insert(Pop(c, k), k, c.at[k])
  }

  /** After the embedding call: the oldest entry makes room for the new one. */
  function Admit(c: Cache, k: Key, v: Vector): Cache {
    Insert(if |c.order| >= MAX && c.order != [] then Pop(c, c.order[0]) else c, k, v)
  }

  /** What happens to the cache between two awaits: a hit, a finished call, or a reset. */
  datatype Event = Hit(key: Key) | Embedded(key: Key, vector: Vector) | Reset

  function Next(c: Cache, e: Event): Cache {
    match e
    case Hit(k) => if k in c.at then Touch(c, k) else c
    case Embedded(k, v) => Admit(c, k, v)
    case Reset => EMPTY
  }

  function Run(events: seq<Event>): Cache {
    if events == [] then EMPTY else Next(Run(events[..|events| - 1]), events[|events| - 1])
  }

  // -------------------------------------------------------------- any interleaving

  ghost predicate Distinct(order: seq<Key>) {
    forall i, j :: 0 <= i < j < |order| ==> order[i] != order[j]
  }

  ghost predicate Valid(c: Cache) {
    Distinct(c.order) && (forall k :: k in c.order <==> k in c.at) && |c.order| <= MAX
  }

  lemma {:induction false} WithoutKeeps(order: seq<Key>, k: Key)
    requires Distinct(order)
    ensures Distinct(Without(order, k)) && forall n :: n in Without(order, k) <==> n in order && n != k
    ensures |Without(order, k)| == |order| - (if k in order then 1 else 0)
  {
    if order != [] {
      var n := |order| - 1;
      WithoutKeeps(order[..n], k);
      assert order == order[..n] + [order[n]];
      assert order[n] !in order[..n];
    }
  }

  lemma PopIsValid(c: Cache, k: Key)
    requires Valid(c)
    ensures Valid(Pop(c, k)) && |Pop(c, k).order| == |c.order| - (if k in c.at then 1 else 0)
  {
    WithoutKeeps(c.order, k);
  }

  lemma InsertIsValid(c: Cache, k: Key, v: Vector)
    requires Valid(c) && (k in c.at || |c.order| < MAX)
    ensures Valid(Insert(c, k, v))
  {
  }

  lemma NextIsValid(c: Cache, e: Event)
    requires Valid(c)
    ensures Valid(Next(c, e))
  {
    match e
    case Hit(k) =>
      if k in c.at {
        PopIsValid(c, k);
        InsertIsValid(Pop(c, k), k, c.at[k]);
      }
    case Embedded(k, v) =>
      if |c.order| >= MAX {
        assert c.order[0] in c.order;
        PopIsValid(c, c.order[0]);
        InsertIsValid(Pop(c, c.order[0]), k, v);
      } else {
        InsertIsValid(c, k, v);
      }
    case Reset =>
  }

  /** The last vector that was admitted for a key. */
  function LastVector(events: seq<Event>, k: Key): Option<Vector> {
    if events == [] then None else
      var last := events[|events| - 1];
      if last.Embedded? && last.key == k then Some(last.vector) else LastVector(events[..|events| - 1], k)
  }

  /** However hits, finished calls and resets interleave, the cache holds at most 64 entries, each
      the latest its call returned. */
  lemma {:induction false} AnyInterleaving(events: seq<Event>)
    ensures Valid(Run(events)) && |Run(events).at| <= 64
    ensures forall k :: k in Run(events).at ==> LastVector(events, k) == Some(Run(events).at[k])
  {
    if events != [] {
      var n := |events| - 1;
      AnyInterleaving(events[..n]);
      NextIsValid(Run(events[..n]), events[n]);
    }
    SizeOf(Run(events));
  }

  lemma SizeOf(c: Cache)
    requires Valid(c)
    ensures |c.at| == |c.order|
  {
    DistinctCount(c.order);
    assert c.at.Keys == set k | k in c.order;
  }

  lemma {:induction false} DistinctCount(order: seq<Key>)
    requires Distinct(order)
    ensures |set k | k in order| == |order|
  {
    if order != [] {
      var n := |order| - 1;
      DistinctCount(order[..n]);
      var rest := set k | k in order[..n];
      assert order == order[..n] + [order[n]];
      assert (set k | k in order) == rest + {order[n]} && order[n] !in rest;
    }
  }

  /** Two calls that miss the same key at once cost an entry: the second evicts although its key is
      there already. */
  lemma SecondMissShrinks(c: Cache, k: Key, v: Vector)
    requires Valid(c) && |c.order| == MAX && k in c.at
    ensures |Admit(c, k, v).order| == if c.order[0] == k then MAX else MAX - 1
  {
    assert c.order[0] in c.order;
    PopIsValid(c, c.order[0]);
  }

  // ------------------------------------------------------------ one after another

  function LastOf(order: seq<Key>): seq<Key> {
    if |order| <= MAX then order else order[|order| - MAX..]
  }

  /** The keys by last use, the latest at the end. */
  function Recency(uses: seq<Key>): seq<Key> {
    if uses == [] then [] else
      var k := uses[|uses| - 1];
      Without(Recency(uses[..|uses| - 1]), k) + [k]
  }

  lemma {:induction false} RecencyIsDistinct(uses: seq<Key>)
    ensures Distinct(Recency(uses)) && forall k :: k in Recency(uses) <==> k in uses
  {
    if uses != [] {
      var n := |uses| - 1;
      RecencyIsDistinct(uses[..n]);
      WithoutKeeps(Recency(uses[..n]), uses[n]);
      assert uses == uses[..n] + [uses[n]];
    }
  }

  lemma {:induction false} WithoutAbsent(order: seq<Key>, k: Key)
    requires k !in order
    ensures Without(order, k) == order
  {
    if order != [] {
      var n := |order| - 1;
      assert order == order[..n] + [order[n]];
      WithoutAbsent(order[..n], k);
    }
  }

  lemma {:induction false} WithoutSplit(a: seq<Key>, b: seq<Key>, k: Key)
    ensures Without(a + b, k) == Without(a, k) + Without(b, k)
    decreases |b|
  {
    if b == [] {
      assert a + b == a;
    } else {
      var n := |b| - 1;
      assert (a + b)[..|a + b| - 1] == a + b[..n];
      WithoutSplit(a, b[..n], k);
    }
  }

  /** Moving a key to the end commutes with forgetting all but the last 64. */
  lemma UseKeepsLast(order: seq<Key>, k: Key)
    requires Distinct(order)
    ensures var last := LastOf(order);
      LastOf(Without(order, k) + [k]) ==
        if k in last then Without(last, k) + [k]
        else (if |last| >= MAX then last[1..] else last) + [k]
  {
    if |order| <= MAX {
      UseOfShort(order, k);
    } else {
      var first, last := order[..|order| - MAX], order[|order| - MAX..];
      assert order == first + last;
      UseOfLong(first, last, order, k);
    }
  }

  lemma UseOfShort(order: seq<Key>, k: Key)
    requires Distinct(order) && |order| <= MAX
    ensures LastOf(Without(order, k) + [k]) ==
      if k in order then Without(order, k) + [k]
      else (if |order| >= MAX then order[1..] else order) + [k]
  {
    WithoutKeeps(order, k);
    if k !in order {
      WithoutAbsent(order, k);
      LastAfterOne(order, k);
    }
  }

  lemma LastAfterOne(order: seq<Key>, k: Key)
    requires |order| <= MAX
    ensures LastOf(order + [k]) == (if |order| >= MAX then order[1..] else order) + [k]
  {
    if |order| == MAX { assert (order + [k])[1..] == order[1..] + [k]; }
  }

  lemma UseOfLong(first: seq<Key>, last: seq<Key>, order: seq<Key>, k: Key)
    requires Distinct(order) && order == first + last && |last| == MAX
    ensures LastOf(Without(order, k) + [k]) == if k in last then Without(last, k) + [k] else last[1..] + [k]
  {
    WithoutSplit(first, last, k);
    if k in last { UseOfLast(first, last, k); } else { UseOfForgotten(first, last, k); }
  }

  lemma UseOfLast(first: seq<Key>, last: seq<Key>, k: Key)
    requires Distinct(first + last) && |last| == MAX && k in last
    ensures LastOf(Without(first, k) + Without(last, k) + [k]) == Without(last, k) + [k]
  {
    var i :| 0 <= i < |last| && last[i] == k;
    assert (first + last)[|first| + i] == k;
    forall j | 0 <= j < |first| ensures first[j] != k { assert (first + last)[j] == first[j]; }
    WithoutAbsent(first, k);
    LastIsDistinct(first, last);
    WithoutKeeps(last, k);
    LastOfJoin(first, Without(last, k) + [k]);
    assert first + Without(last, k) + [k] == first + (Without(last, k) + [k]);
  }

  lemma UseOfForgotten(first: seq<Key>, last: seq<Key>, k: Key)
    requires |last| == MAX && k !in last
    ensures LastOf(Without(first, k) + Without(last, k) + [k]) == last[1..] + [k]
  {
    WithoutAbsent(last, k);
    Regroup(Without(first, k), last, k);
    LastOfJoin(Without(first, k) + last[..1], last[1..] + [k]);
  }

  lemma Regroup(first: seq<Key>, last: seq<Key>, k: Key)
    requires last != []
    ensures first + last + [k] == (first + last[..1]) + (last[1..] + [k])
  {
    assert last == last[..1] + last[1..];
  }

  lemma LastIsDistinct(first: seq<Key>, last: seq<Key>)
    requires Distinct(first + last)
    ensures Distinct(last)
  {
    forall i, j | 0 <= i < j < |last| ensures last[i] != last[j] {
      assert (first + last)[|first| + i] == last[i] && (first + last)[|first| + j] == last[j];
    }
  }

  lemma LastOfJoin(a: seq<Key>, b: seq<Key>)
    requires |b| == MAX
    ensures LastOf(a + b) == b
  {
    if a == [] { assert a + b == b; } else { assert (a + b)[|a + b| - MAX..] == b; }
  }

  lemma {:induction false} RecencyIsShort(uses: seq<Key>)
    ensures |Recency(uses)| <= |uses|
  {
    if uses != [] {
      var n := |uses| - 1;
      RecencyIsDistinct(uses[..n]);
      WithoutKeeps(Recency(uses[..n]), uses[n]);
      RecencyIsShort(uses[..n]);
    }
  }

  /** The keys of the last 64 uses are all kept. */
  lemma SixtyFourAreKept(uses: seq<Key>)
    requires |uses| <= 64
    ensures forall k :: k in uses ==> k in LastOf(Recency(uses))
  {
    RecencyIsShort(uses);
    RecencyIsDistinct(uses);
  }

  /** The cache after these calls, each finished before the next: their last 64 keys by use, and
      what the embedding gives for each. */
  ghost predicate Sequential(c: Cache, uses: seq<Key>, embed: Key -> Option<Vector>) {
    && c.order == LastOf(Recency(uses)) && Valid(c)
    && forall k :: k in c.at ==> embed(k) == Some(c.at[k])
  }

  lemma HitIsUse(c: Cache, uses: seq<Key>, embed: Key -> Option<Vector>, k: Key)
    requires Sequential(c, uses, embed) && k in c.at
    ensures Sequential(Touch(c, k), uses + [k], embed)
  {
    UseOfRecent(uses, k);
    NextIsValid(c, Hit(k));
  }

  lemma UseOfRecent(uses: seq<Key>, k: Key)
    ensures var last := LastOf(Recency(uses));
      LastOf(Recency(uses + [k])) ==
        if k in last then Without(last, k) + [k]
        else (if |last| >= MAX then last[1..] else last) + [k]
  {
    assert (uses + [k])[..|uses|] == uses;
    RecencyIsDistinct(uses);
    UseKeepsLast(Recency(uses), k);
  }

  lemma MissIsUse(c: Cache, uses: seq<Key>, embed: Key -> Option<Vector>, k: Key)
    requires Sequential(c, uses, embed) && k !in c.at && embed(k).Some?
    ensures Sequential(Admit(c, k, embed(k).value), uses + [k], embed)
  {
    UseOfRecent(uses, k);
    NextIsValid(c, Embedded(k, embed(k).value));
    AdmitOrder(c, k, embed(k).value);
  }

  lemma AdmitOrder(c: Cache, k: Key, v: Vector)
    requires Valid(c) && k !in c.at
    ensures Admit(c, k, v).order == (if |c.order| >= MAX then c.order[1..] else c.order) + [k]
    ensures forall n :: n in Admit(c, k, v).at ==> n == k || n in c.at
    ensures forall n :: n in Admit(c, k, v).at ==> Admit(c, k, v).at[n] == if n == k then v else c.at[n]
  {
    if |c.order| >= MAX { PopsFirst(c.order); }
  }

  lemma PopsFirst(order: seq<Key>)
    requires Distinct(order) && order != []
    ensures Without(order, order[0]) == order[1..]
  {
    assert order == [order[0]] + order[1..];
    WithoutSplit([order[0]], order[1..], order[0]);
    WithoutAbsent(order[1..], order[0]);
    assert [order[0]][..0] == [];
  }

  /** What `str.strip` takes away, by code point. */
  predicate IsSpace(ch: char) {
    var n := ch as int;
    || 0x9 <= n <= 0xD || 0x1C <= n <= 0x20 || n == 0x85 || n == 0xA0 || n == 0x1680
    || 0x2000 <= n <= 0x200A || n == 0x2028 || n == 0x2029 || n == 0x202F || n == 0x205F || n == 0x3000
  }

  function Strip(text: string): string {
    if text == "" then ""
    else if IsSpace(text[0]) then Strip(text[1..])
    else if IsSpace(text[|text| - 1]) then Strip(text[..|text| - 1])
    else text
  }

  predicate IsBlank(text: string) {
    forall ch :: ch in text ==> IsSpace(ch)
  }

  /** Stripping leaves nothing of a text exactly if there is nothing but space in it. */
  lemma {:induction false} StripsToNothing(text: string)
    ensures Strip(text) == "" <==> IsBlank(text)
  {
    if text != "" {
      var n := |text| - 1;
      assert text == [text[0]] + text[1..] && text == text[..n] + [text[n]];
      if IsSpace(text[0]) {
        StripsToNothing(text[1..]);
      } else if IsSpace(text[n]) {
        StripsToNothing(text[..n]);
        assert text[0] in text;
        assert n > 0 && text[0] == text[..n][0];
      } else {
        assert text[0] in text;
      }
    }
  }

  /** The process-wide cache. `embed` stands for the embedding call. */
  class EmbeddingCache {
    var cache: Cache
    const embed: Key -> Option<Vector>
    /** The keys that were answered, in order. */
    ghost var uses: seq<Key>

    ghost predicate IsSequential()
      reads this
    {
      Sequential(cache, uses, embed)
    }

    constructor (embed: Key -> Option<Vector>)
      ensures IsSequential() && uses == [] && this.embed == embed
    {
      this.embed, cache, uses := embed, EMPTY, [];
    }

    method Lookup(key: Key) returns (cached: Option<Vector>)
      modifies this`cache
      ensures cache == Next(old(cache), Hit(key))
      ensures cached == if key in old(cache).at then Some(old(cache).at[key]) else None
    {
      if key !in cache.at { return None; }
      var vector := cache.at[key];
      cache := Pop(cache, key);
      cache := Insert(cache, key, vector);
      return Some(vector);
    }

    method Keep(key: Key, vector: Vector)
      modifies this`cache
      ensures cache == Next(old(cache), Embedded(key, vector))
    {
      if |cache.order| >= MAX {
        var oldest := cache.order[0];
        cache := Pop(cache, oldest);
      }
      cache := Insert(cache, key, vector);
    }

    /** One call, with none in between. */
    method EmbedQuery(text: string, model: string) returns (vector: Option<Vector>)
      requires IsSequential()
      modifies this
      ensures IsSequential()
      ensures vector == if IsBlank(text) then None else embed(Key(model, text))
      ensures uses == if vector.Some? then old(uses) + [Key(model, text)] else old(uses)
      ensures vector.None? ==> cache == old(cache)
    {
      StripsToNothing(text);
      if text == "" || Strip(text) == "" { return None; }
      var key := Key(model, text);
      var cached := Lookup(key);
      if cached.Some? {
        HitIsUse(old(cache), uses, embed, key);
        uses := uses + [key];
        return cached;
      }
      vector := embed(key);
      if vector.None? { return None; }
      MissIsUse(cache, uses, embed, key);
      Keep(key, vector.value);
      uses := uses + [key];
    }
  }
}
