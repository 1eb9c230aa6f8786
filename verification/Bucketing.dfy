/** A/B tests: weighted bucketing by a 32-bit hash prefix, and assignments that stick. */
module Bucketing {
  import opened Prelude
  import opened Glob

  const PREFIXES := 0x1_0000_0000

  /** `parseInt` of the first eight hex digits of a SHA-1 digest. */
  type Prefix = x: int | 0 <= x < PREFIXES

  datatype Variant = Variant(id: string, weight: int)

  datatype Config = Config(key: string, variants: seq<Variant>, enabled: bool)

  predicate LowerCase(c: char) {
    'a' <= c <= 'z'
  }

  predicate ValidKey(key: string) {
    && 2 <= |key| <= 64
    && LowerCase(key[0])
    && forall i :: 0 < i < |key| ==> LowerCase(key[i]) || '0' <= key[i] <= '9' || key[i] == '_'
  }

  predicate ValidId(id: string) {
    && 1 <= |id| <= 32
    && 'A' <= id[0] <= 'Z'
    && forall i :: 0 < i < |id| ==> 'A' <= id[i] <= 'Z' || '0' <= id[i] <= '9' || id[i] == '_'
  }

  function Total(variants: seq<Variant>): int {
    if variants == [] then 0 else Total(variants[..|variants| - 1]) + variants[|variants| - 1].weight
  }

  ghost predicate Weighted(variants: seq<Variant>) {
    variants != [] && forall i :: 0 <= i < |variants| ==> variants[i].weight >= 1
  }

  /** `AbTestConfigSchema`. */
  predicate Valid(c: Config) {
    && ValidKey(c.key)
    && 2 <= |c.variants| <= 6
    && (forall i :: 0 <= i < |c.variants| ==> ValidId(c.variants[i].id) && 1 <= c.variants[i].weight <= 100)
    && Total(c.variants) == 100
    && forall i, j :: 0 <= i < j < |c.variants| ==> c.variants[i].id != c.variants[j].id
  }

  function Ids(c: Config): set<string> {
    set v | v in c.variants :: v.id
  }

  function HashInput(key: string, userId: string): string {
    key + ":" + userId
  }

  // ---- Buckets ----

  /** Variant i covers the buckets from the weights before it up to its own. */
  ghost predicate Owns(variants: seq<Variant>, i: int, bucket: int) {
    0 <= i < |variants| && Total(variants[..i]) <= bucket < Total(variants[..i + 1])
  }

  lemma {:induction false} TotalsRise(variants: seq<Variant>, i: nat, j: nat)
    requires Weighted(variants) && i <= j <= |variants|
    ensures Total(variants[..i]) <= Total(variants[..j])
    ensures j < |variants| ==> Total(variants[..j + 1]) == Total(variants[..j]) + variants[j].weight
    ensures Total(variants[..0]) == 0 && variants[..|variants|] == variants
    decreases j
  {
    if j < |variants| {
      assert variants[..j + 1][..j] == variants[..j];
    }
    if i < j {
      TotalsRise(variants, i, j - 1);
    }
  }

  /** Every bucket below the total has exactly one owner. */
  lemma {:induction false} OneOwner(variants: seq<Variant>, bucket: int)
    requires Weighted(variants) && 0 <= bucket < Total(variants)
    ensures exists i :: Owns(variants, i, bucket)
    ensures forall i, j :: Owns(variants, i, bucket) && Owns(variants, j, bucket) ==> i == j
  {
    TotalsRise(variants, 0, 0);
    OwnerBelow(variants, |variants|, bucket);
    forall i, j | Owns(variants, i, bucket) && Owns(variants, j, bucket)
      ensures i == j
    {
      if i < j {
        TotalsRise(variants, i + 1, j);
      } else if j < i {
        TotalsRise(variants, j + 1, i);
      }
    }
  }

  lemma {:induction false} OwnerBelow(variants: seq<Variant>, n: nat, bucket: int)
    requires Weighted(variants) && n <= |variants| && 0 <= bucket < Total(variants[..n])
    ensures exists i :: Owns(variants, i, bucket)
  {
    TotalsRise(variants, 0, 0);
    if bucket < Total(variants[..n - 1]) {
      OwnerBelow(variants, n - 1, bucket);
    } else {
      assert Owns(variants, n - 1, bucket);
    }
  }

  /** The owner of the user's bucket; the fallback after the loop is never reached. */
  method PickVariant(config: Config, userId: string, hash: string -> Prefix) returns (id: string)
    requires Weighted(config.variants)
    ensures id == Picked(config, userId, hash)
  {
    var total := 0;
    for i := 0 to |config.variants|
      invariant total == Total(config.variants[..i]) && total >= i
    {
      TotalsRise(config.variants, 0, i);
      total := total + config.variants[i].weight;
    }
    TotalsRise(config.variants, 0, 0);
    var bucket := hash(HashInput(config.key, userId)) % total;
    OneOwner(config.variants, bucket);
    var cum := 0;
    for i := 0 to |config.variants|
      invariant cum == Total(config.variants[..i]) && cum <= bucket
    {
      TotalsRise(config.variants, 0, i);
      cum := cum + config.variants[i].weight;
      if bucket < cum {
        assert Owns(config.variants, i, bucket);
        return config.variants[i].id;
      }
    }
    assert false;
  }

  ghost function OwnerOf(variants: seq<Variant>, bucket: int): (i: int)
    requires Weighted(variants) && 0 <= bucket < Total(variants)
    ensures Owns(variants, i, bucket)
  {
    OneOwner(variants, bucket);
    var i :| Owns(variants, i, bucket);
    i
  }

  lemma {:induction false} TotalPositive(variants: seq<Variant>)
    requires Weighted(variants)
    ensures Total(variants) >= 1
  {
    TotalsRise(variants, 1, |variants|);
    TotalsRise(variants, 0, 0);
  }

  /** The id of the variant that owns the user's bucket. */
  ghost function Picked(config: Config, userId: string, hash: string -> Prefix): string
    requires Weighted(config.variants)
  {
    TotalPositive(config.variants);
    config.variants[OwnerOf(config.variants, hash(HashInput(config.key, userId)) % Total(config.variants))].id
  }

  // ---- Shares ----

  function Clamp(x: int, hi: int): int {
    if x < 0 then 0 else if x > hi then hi else x
  }

  /** Quotient and remainder of a hash prefix. */
  function Round(p: int, t: int): int
    requires t >= 1
  {
    p / t
  }

  function Bucket(p: int, t: int): (b: int)
    requires t >= 1
    ensures 0 <= b < t
  {
    p % t
  }

  /** Prefix p falls into the buckets [a, a + w) of t. */
  predicate Hit(p: int, t: int, a: int, w: int)
    requires t >= 1
  {
    a <= Bucket(p, t) < a + w
  }

  /** How many of the first n hash prefixes do. */
  function Hits(n: nat, t: int, a: int, w: int): nat
    requires t >= 1
  {
    if n == 0 then 0 else Hits(n - 1, t, a, w) + if Hit(n - 1, t, a, w) then 1 else 0
  }

  function HitSet(n: nat, t: int, a: int, w: int): set<int>
    requires t >= 1
  {
    set p: int | 0 <= p < n && Hit(p, t, a, w)
  }

  lemma {:induction false} HitSetNext(n: nat, t: int, a: int, w: int)
    requires t >= 1
    ensures HitSet(n + 1, t, a, w) == HitSet(n, t, a, w) + (if Hit(n, t, a, w) then {n} else {})
    ensures n !in HitSet(n, t, a, w) && HitSet(0, t, a, w) == {}
  {
    hide Hit;
  }

  lemma {:induction false} HitsCount(n: nat, t: int, a: int, w: int)
    requires t >= 1
    ensures |HitSet(n, t, a, w)| == Hits(n, t, a, w)
  {
    hide Hit, HitSet;
    HitSetNext(if n == 0 then 0 else n - 1, t, a, w);
    if n > 0 {
      HitsCount(n - 1, t, a, w);
    }
  }

  lemma {:induction false} QuotientIs(n: int, t: int, q: int, r: int)
    requires t >= 1 && 0 <= r < t && n == t * q + r
    ensures Round(n, t) == q && Bucket(n, t) == r
  {
    var d := n / t - q;
    assert t * d == r - n % t;
    MultiplesApart(t, d);
  }

  lemma {:induction false} MultiplesApart(t: int, d: int)
    requires t >= 1
    ensures d >= 1 ==> t * d >= t
    ensures d <= -1 ==> t * d <= -t
  {
  }

  lemma {:induction false} Division(n: int, t: int)
    requires t >= 1
    ensures n == t * Round(n, t) + Bucket(n, t)
  {
  }

  lemma {:induction false} OneRoundMore(w: int, q: int)
    ensures w * (q + 1) == w * q + w
  {
  }

  lemma {:induction false} NextQuotient(n: nat, t: int)
    requires t >= 1 && n >= 1
    ensures Bucket(n - 1, t) < t - 1 ==> Round(n, t) == Round(n - 1, t) && Bucket(n, t) == Bucket(n - 1, t) + 1
    ensures Bucket(n - 1, t) == t - 1 ==> Round(n, t) == Round(n - 1, t) + 1 && Bucket(n, t) == 0
  {
    hide Round, Bucket;
    Division(n - 1, t);
    var q, r := Round(n - 1, t), Bucket(n - 1, t);
    OneRoundMore(t, q);
    if r == t - 1 {
      QuotientIs(n, t, q + 1, 0);
    } else {
      QuotientIs(n, t, q, r + 1);
    }
  }

  /** The exact share: w for every whole round of buckets, plus what the last, partial round covers. */
  lemma {:induction false} ExactShare(n: nat, t: int, a: int, w: int)
    requires 0 <= a && 0 <= w && a + w <= t && t >= 1
    ensures Hits(n, t, a, w) == w * Round(n, t) + Clamp(Bucket(n, t) - a, w)
  {
    hide Round, Bucket;
    if n == 0 {
      QuotientIs(0, t, 0, 0);
    } else {
      ExactShare(n - 1, t, a, w);
      NextQuotient(n, t);
      OneRoundMore(w, Round(n - 1, t));
    }
  }

  /** Owning a prefix's bucket is hitting the variant's band. */
  lemma {:induction false} OwnsIsHit(variants: seq<Variant>, i: nat, p: int)
    requires Weighted(variants) && i < |variants| && Total(variants) >= 1
    ensures Owns(variants, i, p % Total(variants))
      <==> Hit(p, Total(variants), Total(variants[..i]), variants[i].weight)
    ensures 0 <= Total(variants[..i]) && Total(variants[..i]) + variants[i].weight <= Total(variants)
  {
    TotalsRise(variants, 0, i);
    TotalsRise(variants, i + 1, |variants|);
  }

  /** The prefixes whose bucket a variant owns. */
  lemma {:induction false} ShareCount(variants: seq<Variant>, i: nat, n: nat)
    requires Weighted(variants) && i < |variants| && Total(variants) >= 1
    ensures |set p: int | 0 <= p < n && Owns(variants, i, p % Total(variants))|
      == variants[i].weight * Round(n, Total(variants))
        + Clamp(Bucket(n, Total(variants)) - Total(variants[..i]), variants[i].weight)
  {
    var t, a, w := Total(variants), Total(variants[..i]), variants[i].weight;
    forall p
      ensures Owns(variants, i, p % t) <==> Hit(p, t, a, w)
    {
      OwnsIsHit(variants, i, p);
    }
    OwnsIsHit(variants, i, 0);
    HitsCount(n, t, a, w);
    ExactShare(n, t, a, w);
    hide Owns, Hit, Total, Weighted, Hits, Clamp, Round, Bucket;
    assert (set p: int | 0 <= p < n && Owns(variants, i, p % t)) == HitSet(n, t, a, w);
  }

  /** Each variant owns exactly as many buckets as it weighs. */
  lemma {:induction false} BucketsMatchWeights(variants: seq<Variant>, i: nat)
    requires Weighted(variants) && i < |variants|
    ensures |set b: int | 0 <= b < Total(variants) && Owns(variants, i, b)| == variants[i].weight
  {
    TotalPositive(variants);
    var t := Total(variants);
    ShareCount(variants, i, t);
    OwnsIsHit(variants, i, 0);
    QuotientIs(t, t, 1, 0);
    forall b: int | 0 <= b < t
      ensures b % t == b
    {
      QuotientIs(b, t, 0, b);
    }
    hide Owns, Total, Weighted, Round, Bucket;
    assert (set b: int | 0 <= b < t && Owns(variants, i, b)) == set p: int | 0 <= p < t && Owns(variants, i, p % t);
  }

  /** Its share of the first n hash prefixes is within one round of its weight. */
  lemma {:induction false} SharesMatchWeights(variants: seq<Variant>, i: nat, n: nat)
    requires Weighted(variants) && i < |variants|
    ensures var t, w := Total(variants), variants[i].weight;
      && t >= 1
      && var share := |set p: int | 0 <= p < n && Owns(variants, i, p % t)|;
         w * Round(n, t) <= share <= w * (Round(n, t) + 1)
  {
    TotalPositive(variants);
    ShareCount(variants, i, n);
    OneRoundMore(variants[i].weight, Round(n, Total(variants)));
    hide Owns, Total, Round, Bucket;
  }

  /** For a stored test: of all 2^32 prefixes a variant of weight w gets 42949672 * w, and at most
      w more; 96 prefixes are left over, and they go to the buckets below 96. */
  lemma {:induction false} SharesOfATest(c: Config, i: nat)
    requires Valid(c) && i < |c.variants|
    ensures var w := c.variants[i].weight;
      |set p: int | 0 <= p < PREFIXES && Owns(c.variants, i, p % 100)|
        == 42949672 * w + Clamp(96 - Total(c.variants[..i]), w)
  {
    ShareCount(c.variants, i, PREFIXES);
    QuotientIs(PREFIXES, 100, 42949672, 96);
    hide Owns, Round, Bucket;
  }

  // ---- Stored tests and assignments ----

  /** Test configurations by key, and assignments by their whole Redis key. */
  datatype Store = Store(configs: map<string, Config>, assigns: map<string, string>)

  const Empty := Store(map[], map[])

  function AssignPrefix(key: string): string {
    "ab_test:assign:" + key + ":"
  }

  function AssignKey(key: string, userId: string): string {
    AssignPrefix(key) + userId
  }

  /** `get`: a configuration that does not parse counts as missing. */
  function Get(s: Store, key: string): Option<Config> {
    if key in s.configs && Valid(s.configs[key]) then Some(s.configs[key]) else None
  }

  datatype Answer = NotFound | VariantId(id: string)

  /** The stored assignment, if it is still one of the test's variants. */
  predicate Sticks(s: Store, c: Config, slot: string) {
    slot in s.assigns && s.assigns[slot] in Ids(c)
  }

  ghost function Assigned(s: Store, key: string, userId: string, hash: string -> Prefix): (Store, Answer) {
    var slot := AssignKey(key, userId);
    match Get(s, key)
    case None => (s, NotFound)
    case Some(c) =>
      if !c.enabled then (s, VariantId(c.variants[0].id))
      else if Sticks(s, c, slot) then (s, VariantId(s.assigns[slot]))
      else
        var id := Picked(c, userId, hash);
        (s.(assigns := s.assigns[slot := id]), VariantId(id))
  }

  function Upserted(s: Store, c: Config): Store {
    s.(configs := s.configs[c.key := c])
  }

  /** Deleting under a key reaches a slot. The key is part of the pattern, and nobody validates it. */
  predicate Reaches(key: string, slot: string) {
    Matches(AssignPrefix(key) + "*", slot)
  }

  function Deleted(s: Store, key: string): Store {
    Store(s.configs - {key}, map slot | slot in s.assigns && !Reaches(key, slot) :: s.assigns[slot])
  }

  class AbTestService {
    var configs: map<string, Config>
    var assigns: map<string, string>
    const hash: string -> Prefix

    function Contents(): Store
      reads this
    {
      Store(configs, assigns)
    }

    constructor (hash: string -> Prefix)
      ensures this.hash == hash && Contents() == Empty
    {
      this.hash := hash;
      configs, assigns := map[], map[];
    }

    method Upsert(dto: Config)
      modifies this
      ensures Contents() == Upserted(old(Contents()), dto)
    {
      configs := configs[dto.key := dto];
    }

    method Delete(key: string) returns (removed: bool)
      modifies this
      ensures Contents() == Deleted(old(Contents()), key)
      ensures removed <==> key in old(configs)
    {
      removed := key in configs;
      configs := configs - {key};
      hide Reaches;
      var assignments := set slot | slot in assigns && Reaches(key, slot);
      if assignments != {} {
        assigns := assigns - assignments;
      }
      assert forall slot :: slot in old(assigns) ==> (Reaches(key, slot) <==> slot in assignments);
      assert assigns == map slot | slot in old(assigns) && !Reaches(key, slot) :: old(assigns)[slot];
    }

    method Assign(key: string, userId: string) returns (answer: Answer)
      modifies this
      ensures (Contents(), answer) == Assigned(old(Contents()), key, userId, hash)
    {
      var config := Get(Contents(), key);
      if config.None? {
        return NotFound;
      }
      if !config.value.enabled {
        return VariantId(config.value.variants[0].id);
      }
      var cacheKey := AssignKey(key, userId);
      if cacheKey in assigns && assigns[cacheKey] != "" {
        if exists v :: v in config.value.variants && v.id == assigns[cacheKey] {
          return VariantId(assigns[cacheKey]);
        }
      }
      assert !Sticks(Contents(), config.value, cacheKey);
      var variantId := PickVariant(config.value, userId, hash);
      assigns := assigns[cacheKey := variantId];
      return VariantId(variantId);
    }
  }

  // ---- Slots ----

  lemma {:induction false} KeysArePlain(key: string)
    requires ValidKey(key)
    ensures ':' !in key && Plain(key)
  {
  }

  /** What a deletion reaches depends on the two keys and the user only. */
  lemma {:induction false} ReachIsRelative(key: string, other: string, userId: string)
    ensures Reaches(other, AssignKey(key, userId)) <==> Matches(other + ":*", key + ":" + userId)
  {
    var lead, slot := "ab_test:assign:", AssignKey(key, userId);
    assert Plain(lead);
    assert AssignPrefix(other) + "*" == lead + (other + ":*");
    assert slot == lead + (key + ":" + userId);
    assert slot[..|lead|] == lead && slot[|lead|..] == key + ":" + userId;
    PlainStrips(lead, other + ":*", slot);
  }

  /** Deleting under a key without pattern characters reaches the assignments of that test and of no
      other, as long as the key or the user's id has no colon; user ids are uuids. */
  lemma {:induction false} SlotsApart(key: string, other: string, userId: string)
    requires ValidKey(key) && Plain(other) && (':' !in other || ':' !in userId)
    ensures Reaches(other, AssignKey(key, userId)) <==> key == other
  {
    KeysArePlain(key);
    ReachIsRelative(key, other, userId);
    var text, tail := other + ":", key + ":" + userId;
    assert other + ":*" == text + "*" && text[|other|] == ':' && tail[|key|] == ':';
    assert text[..|other|] == other;
    assert key == other ==> tail[..|text|] == text;
    PlainThenStar(text, tail);
    hide ValidKey;
    if HasPrefix(tail, text) {
      assert tail[|other|] == tail[..|text|][|other|] == ':';
      assert tail[..|other|] == tail[..|text|][..|other|] == other;
      assert tail[..|key|] == key;
      assert forall i :: 0 <= i < |key| ==> tail[i] == key[i] && tail[i] != ':';
      assert forall i :: |key| < i < |tail| ==> tail[i] == userId[i - |key| - 1];
      assert forall i :: 0 <= i < |other| ==> tail[i] == other[i];
      assert |other| == |key|;
    }
  }

  /** Deleting under a star reaches every assignment of every test. */
  lemma {:induction false} StarReachesAll(key: string, userId: string)
    ensures Reaches("*", AssignKey(key, userId))
  {
    ReachIsRelative(key, "*", userId);
    StarMatches(userId);
    PlainStrips(":", "*", ":" + userId);
    assert (":" + userId)[1..] == userId && (":" + userId)[..1] == ":" && ":" + "*" == ":*";
    StarSkips(":*", key, ":" + userId);
    assert "*" + ":*" == "*:*" && key + (":" + userId) == key + ":" + userId;
  }

  /** Different users, or different tests, have different slots. */
  lemma {:induction false} SlotsDistinct(key: string, userId: string, other: string, otherUser: string)
    requires ValidKey(key) && ValidKey(other)
    ensures AssignKey(key, userId) == AssignKey(other, otherUser) <==> key == other && userId == otherUser
  {
    KeysArePlain(key);
    KeysArePlain(other);
    if AssignKey(key, userId) == AssignKey(other, otherUser) {
      SlotsApart(key, key, userId);
      SlotsApart(other, key, otherUser);
      var n := |AssignPrefix(key)|;
      assert AssignKey(key, userId)[n..] == userId && AssignKey(key, otherUser)[n..] == otherUser;
    }
  }

  // ---- Runs ----

  datatype Op = Put(config: Config) | Drop(key: string) | Ask(key: string, userId: string)

  ghost function Step(s: Store, op: Op, hash: string -> Prefix): Store {
    match op
    case Put(c) => Upserted(s, c)
    case Drop(key) => Deleted(s, key)
    case Ask(key, u) => Assigned(s, key, u, hash).0
  }

  ghost function Run(s: Store, ops: seq<Op>, hash: string -> Prefix): Store {
    if ops == [] then s else Step(Run(s, ops[..|ops| - 1], hash), ops[|ops| - 1], hash)
  }

  /** A configuration is stored under its own key. */
  ghost predicate WellKeyed(s: Store) {
    forall key :: key in s.configs ==> s.configs[key].key == key
  }

  lemma {:induction false} PickedIsVariant(c: Config, userId: string, hash: string -> Prefix)
    requires Weighted(c.variants)
    ensures Picked(c, userId, hash) in Ids(c)
  {
    TotalPositive(c.variants);
    var i := OwnerOf(c.variants, hash(HashInput(c.key, userId)) % Total(c.variants));
    assert c.variants[i] in c.variants;
  }

  // ---- Tests and answers, from the log alone ----

  /** The step stores or removes the configuration under a key. */
  predicate Touches(op: Op, key: string) {
    (op.Put? && op.config.key == key) || op == Drop(key)
  }

  /** The i-th step stored a configuration under the key that nobody has touched since. */
  ghost predicate LatestPut(ops: seq<Op>, i: int, key: string) {
    && 0 <= i < |ops|
    && ops[i].Put? && ops[i].config.key == key
    && forall j :: i < j < |ops| ==> !Touches(ops[j], key)
  }

  lemma {:induction false} PutStep(ops: seq<Op>, i: int, key: string)
    requires ops != []
    ensures var n := |ops| - 1;
      LatestPut(ops, i, key) <==> if Touches(ops[n], key) then i == n && ops[n].Put? else LatestPut(ops[..n], i, key)
  {
    var n := |ops| - 1;
    assert forall j :: 0 <= j < n ==> ops[..n][j] == ops[j];
  }

  lemma {:induction false} ConfigStep(s: Store, op: Op, key: string, hash: string -> Prefix)
    ensures var after := Step(s, op, hash).configs;
      && (key in after <==> if Touches(op, key) then op.Put? else key in s.configs)
      && (key in after ==> after[key] == if Touches(op, key) then op.config else s.configs[key])
  {
    hide Valid, Picked, AssignKey, Reaches, Weighted, Sticks;
  }

  /** A configuration is stored under a key exactly if it was put there last and nobody has removed it
      since, whoever asked in between. */
  lemma {:induction false} ConfigFromLog(ops: seq<Op>, key: string, c: Config, hash: string -> Prefix)
    ensures var configs := Run(Empty, ops, hash).configs;
      key in configs && configs[key] == c <==> exists i :: LatestPut(ops, i, key) && ops[i].config == c
  {
    hide Step, Touches, LatestPut;
    if ops == [] {
      assert forall i :: !LatestPut(ops, i, key) by {
        PutNeedsStep(ops, key);
      }
    } else {
      var n := |ops| - 1;
      ConfigFromLog(ops[..n], key, c, hash);
      ConfigStep(Run(Empty, ops[..n], hash), ops[n], key, hash);
      PutNeedsStep(ops[..n], key);
      forall i
        ensures LatestPut(ops, i, key) <==>
          if Touches(ops[n], key) then i == n && ops[n].Put? else LatestPut(ops[..n], i, key)
      {
        PutStep(ops, i, key);
      }
      assert forall i :: LatestPut(ops[..n], i, key) ==> ops[..n][i] == ops[i];
    }
  }

  lemma {:induction false} PutNeedsStep(ops: seq<Op>, key: string)
    ensures forall i :: LatestPut(ops, i, key) ==> 0 <= i < |ops| && ops[i].Put?
  {
  }

  /** What a user is answered, from the stored texts alone: the assignment of this user and test, if one
      of the variants has that id; else the owner of the bucket of key and user, which is stored for them;
      a disabled test answers with its first variant. Nothing else changes. */
  lemma {:induction false} AnsweredExactly(s: Store, key: string, userId: string, hash: string -> Prefix)
    requires WellKeyed(s)
    ensures var (after, answer) := Assigned(s, key, userId, hash);
      var slot := "ab_test:assign:" + key + ":" + userId;
      && (answer == NotFound <==> key !in s.configs || !Valid(s.configs[key]))
      && (answer.VariantId? ==>
            var c := s.configs[key];
            var kept := slot in s.assigns && exists v :: v in c.variants && v.id == s.assigns[slot];
            && (!c.enabled ==> answer.id == c.variants[0].id)
            && (c.enabled && kept ==> answer.id == s.assigns[slot])
            && (c.enabled && !kept ==>
                  && slot in after.assigns && after.assigns[slot] == answer.id
                  && exists i :: Owns(c.variants, i, hash(key + ":" + userId) % 100) && c.variants[i].id == answer.id)
            && (!c.enabled || kept ==> after == s))
      && after.configs == s.configs
      && after.assigns - {slot} == s.assigns - {slot}
  {
    var slot := "ab_test:assign:" + key + ":" + userId;
    assert AssignKey(key, userId) == slot;
    if Get(s, key).Some? {
      ValidIsWeighted(s.configs[key]);
      assert Total(s.configs[key].variants) == 100;
    }
    hide ValidKey, ValidId, Owns, AssignKey, Total, Weighted;
  }

  /** No two users, and no two tests, share a hash input. */
  lemma {:induction false} InputsDistinct(key: string, userId: string, other: string, otherUser: string)
    requires ValidKey(key) && ValidKey(other)
    ensures HashInput(key, userId) == HashInput(other, otherUser) <==> key == other && userId == otherUser
  {
    SlotsDistinct(key, userId, other, otherUser);
    assert AssignKey(key, userId) == "ab_test:assign:" + HashInput(key, userId);
    assert AssignKey(other, otherUser) == "ab_test:assign:" + HashInput(other, otherUser);
  }

  /** The step replaces the assignment of a user: a deletion reaches it, or the user asks while the test
      is enabled without the assigned variant. */
  ghost predicate Reassigns(s: Store, op: Op, key: string, userId: string) {
    var slot := AssignKey(key, userId);
    match op
    case Put(_) => false
    case Drop(k) => Reaches(k, slot)
    case Ask(k, u) =>
      k == key && u == userId && Get(s, key).Some? && Get(s, key).value.enabled && !Sticks(s, Get(s, key).value, slot)
  }

  predicate Stored(s: Store, slot: string, id: string) {
    slot in s.assigns && s.assigns[slot] == id
  }

  /** An assignment survives a step exactly if the step does not replace it. */
  lemma {:induction false} StaysExactly(s: Store, op: Op, key: string, userId: string, id: string,
                                        hash: string -> Prefix)
    requires ValidKey(key) && WellKeyed(s) && Stored(s, AssignKey(key, userId), id)
    ensures Stored(Step(s, op, hash), AssignKey(key, userId), id) <==> !Reassigns(s, op, key, userId)
  {
    var slot := AssignKey(key, userId);
    hide ValidKey, AssignKey, Valid, Picked, Reaches;
    match op {
      case Put(_) =>
      case Drop(k) =>
      case Ask(k, u) =>
        if Get(s, k).Some? {
          var c := Get(s, k).value;
          ValidIsWeighted(c);
          SlotsDistinct(key, userId, k, u);
          if c.enabled && !Sticks(s, c, AssignKey(k, u)) {
            PickedIsVariant(c, u, hash);
          }
        }
    }
  }

  lemma {:induction false} ValidIsWeighted(c: Config)
    requires Valid(c)
    ensures Weighted(c.variants) && ValidKey(c.key)
  {
  }

  lemma {:induction false} WellKeyedStep(s: Store, op: Op, hash: string -> Prefix)
    requires WellKeyed(s)
    ensures WellKeyed(Step(s, op, hash))
  {
    hide Valid, AssignKey, Picked, Reaches;
  }

  /** The steps only store configurations of the test that keep the variant, and no deletion reaches
      the slot. */
  ghost predicate Keeps(ops: seq<Op>, key: string, slot: string, id: string) {
    forall i :: 0 <= i < |ops| ==>
      && (ops[i].Put? && ops[i].config.key == key ==> id in Ids(ops[i].config))
      && (ops[i].Drop? ==> !Reaches(ops[i].key, slot))
  }

  ghost predicate Offers(s: Store, key: string, id: string) {
    key in s.configs ==> id in Ids(s.configs[key])
  }

  /** Whatever happens to weights, order, labels, other variants and the enabled switch, and whatever
      happens to other tests: an assignment stays as long as its id stays in the configuration and no
      deletion reaches it. */
  lemma {:induction false} AssignmentSticks(s: Store, ops: seq<Op>, key: string, userId: string, id: string,
                                            hash: string -> Prefix)
    requires ValidKey(key) && WellKeyed(s)
    requires Stored(s, AssignKey(key, userId), id) && Offers(s, key, id) && Keeps(ops, key, AssignKey(key, userId), id)
    ensures var after := Run(s, ops, hash);
      WellKeyed(after) && Stored(after, AssignKey(key, userId), id) && Offers(after, key, id)
  {
    hide ValidKey, Step, WellKeyed, AssignKey, Stored, Reaches;
    if ops != [] {
      var n := |ops| - 1;
      var before := Run(s, ops[..n], hash);
      AssignmentSticks(s, ops[..n], key, userId, id, hash);
      NotReassigned(before, ops[n], key, userId, id);
      StaysExactly(before, ops[n], key, userId, id, hash);
      WellKeyedStep(before, ops[n], hash);
      OffersStep(before, ops[n], key, id, hash);
    }
  }

  lemma {:induction false} NotReassigned(s: Store, op: Op, key: string, userId: string, id: string)
    requires Stored(s, AssignKey(key, userId), id) && Offers(s, key, id)
      && (op.Drop? ==> !Reaches(op.key, AssignKey(key, userId)))
    ensures !Reassigns(s, op, key, userId)
  {
  }

  lemma {:induction false} OffersStep(s: Store, op: Op, key: string, id: string, hash: string -> Prefix)
    requires Offers(s, key, id)
    requires op.Put? && op.config.key == key ==> id in Ids(op.config)
    ensures Offers(Step(s, op, hash), key, id)
  {
    hide Ids, Valid, Picked, AssignKey;
  }

  /** A user who was given a variant by an enabled test gets it again after any such run, unless the
      test is disabled or unreadable by then; a disabled test answers with its first variant. */
  lemma {:induction false} SameAnswerAgain(s: Store, ops: seq<Op>, key: string, userId: string, hash: string -> Prefix)
    requires WellKeyed(s) && Get(s, key).Some? && Get(s, key).value.enabled
    requires Keeps(ops, key, AssignKey(key, userId), Assigned(s, key, userId, hash).1.id)
    ensures var (first, given) := Assigned(s, key, userId, hash);
      var last := Run(first, ops, hash);
      Assigned(last, key, userId, hash) == (last, match Get(last, key)
                                                  case None => NotFound
                                                  case Some(c) =>
                                                    if c.enabled then given else VariantId(c.variants[0].id))
  {
    var (first, given) := Assigned(s, key, userId, hash);
    var c := Get(s, key).value;
    ValidIsWeighted(c);
    PickedIsVariant(c, userId, hash);
    WellKeyedStep(s, Ask(key, userId), hash);
    hide Picked, Weighted, ValidKey, Valid;
    AssignmentSticks(first, ops, key, userId, given.id, hash);
    hide Run, WellKeyed;
  }

  /** A deletion under a star resets every test: whatever was assigned, by whichever test, is gone. */
  lemma {:induction false} StarDropsAll(s: Store, key: string, userId: string, id: string, hash: string -> Prefix)
    requires Stored(s, AssignKey(key, userId), id)
    ensures !Stored(Step(s, Drop("*"), hash), AssignKey(key, userId), id)
  {
    StarReachesAll(key, userId);
  }
}
