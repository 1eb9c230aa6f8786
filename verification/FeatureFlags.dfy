/** Feature flags stored as Redis hashes of strings, and their evaluation for a user. */
module FeatureFlags {
  import opened Prelude
  import Bucketing

  type Prefix = Bucketing.Prefix

  datatype Strategy = OFF | ON | PERCENTAGE | USER_LIST

  function Name(s: Strategy): string {
    match s
    case OFF => "OFF"
    case ON => "ON"
    case PERCENTAGE => "PERCENTAGE"
    case USER_LIST => "USER_LIST"
  }

  datatype Dto = Dto(key: string, strategy: Strategy, percentage: Option<int>, userIds: Option<seq<string>>,
                     description: Option<string>)

  predicate HexDigit(c: char) {
    '0' <= c <= '9' || 'a' <= c <= 'f' || 'A' <= c <= 'F'
  }

  predicate IsUuid(s: string) {
    |s| == 36 && forall i :: 0 <= i < 36 ==> if i in {8, 13, 18, 23} then s[i] == '-' else HexDigit(s[i])
  }

  /** `UpsertFeatureFlagSchema`. */
  predicate Valid(dto: Dto) {
    && Bucketing.ValidKey(dto.key)
    && (dto.percentage.Some? ==> 0 <= dto.percentage.value <= 100)
    && (dto.userIds.Some? ==> |dto.userIds.value| <= 1000)
    && (dto.userIds.Some? ==> forall i :: 0 <= i < |dto.userIds.value| ==> IsUuid(dto.userIds.value[i]))
    && (dto.description.Some? ==> |dto.description.value| <= 500)
  }

  // ---- Strings ----

  function Digit(d: int): char
    requires 0 <= d <= 9
  {
    "0123456789"[d]
  }

  /** `String(n)` for a natural number. */
  function Decimal(n: nat): string {
    if n < 10 then [Digit(n)] else Decimal(n / 10) + [Digit(n % 10)]
  }

  /** `Number(s)` for a string of decimal digits; anything else counts as not finite. */
  function ParseDecimal(s: string): Option<int> {
    if s == "" || !('0' <= s[|s| - 1] <= '9') then None
    else
      var d := s[|s| - 1] as int - '0' as int;
      if |s| == 1 then Some(d)
      else
        match ParseDecimal(s[..|s| - 1])
        case None => None
        case Some(n) => Some(10 * n + d)
  }

  lemma {:induction false} DecimalReadBack(n: nat)
    ensures ParseDecimal(Decimal(n)) == Some(n)
  {
    if n >= 10 {
      DecimalReadBack(n / 10);
      DigitValue(n % 10);
      var s := Decimal(n);
      assert s[..|s| - 1] == Decimal(n / 10);
    } else {
      DigitValue(n);
    }
  }

  lemma {:induction false} DigitValue(d: int)
    requires 0 <= d <= 9
    ensures '0' <= Digit(d) <= '9' && Digit(d) as int - '0' as int == d
  {
    assert d == 0 || d == 1 || d == 2 || d == 3 || d == 4 || d == 5 || d == 6 || d == 7 || d == 8 || d == 9;
  }

  function Join(parts: seq<string>): string {
    if parts == [] then "" else if |parts| == 1 then parts[0] else parts[0] + "," + Join(parts[1..])
  }

  /** The position of the first comma, or the length. */
  function FirstComma(s: string): (n: nat)
    ensures n <= |s|
  {
    if s == "" || s[0] == ',' then 0 else 1 + FirstComma(s[1..])
  }

  function Split(s: string): seq<string>
    decreases |s|
  {
    var n := FirstComma(s);
    if n == |s| then [s] else [s[..n]] + Split(s[n + 1..])
  }

  lemma {:induction false} FirstCommaAfter(a: string, rest: string)
    requires ',' !in a
    ensures FirstComma(a) == |a| && FirstComma(a + ("," + rest)) == |a|
  {
    var s := a + ("," + rest);
    if a != "" {
      FirstCommaAfter(a[1..], rest);
      assert s[1..] == a[1..] + ("," + rest);
    } else {
      assert s[0] == ',';
    }
  }

  lemma {:induction false} SplitHead(a: string, rest: string)
    requires ',' !in a
    ensures Split(a + ("," + rest)) == [a] + Split(rest) && Split(a) == [a]
  {
    FirstCommaAfter(a, rest);
    var s := a + ("," + rest);
    assert s[..|a|] == a && s[|a| + 1..] == rest;
  }

  lemma {:induction false} SplitJoin(parts: seq<string>)
    requires parts != [] && forall i :: 0 <= i < |parts| ==> ',' !in parts[i]
    ensures Split(Join(parts)) == parts
  {
    hide Split;
    if |parts| == 1 {
      SplitHead(parts[0], "");
    } else {
      SplitJoin(parts[1..]);
      SplitHead(parts[0], Join(parts[1..]));
      assert Join(parts) == parts[0] + ("," + Join(parts[1..]));
    }
  }

  predicate IsSpace(c: char) {
    var n := c as int;
    || n == 0x20 || 9 <= n <= 13 || n == 0xa0 || n == 0x1680 || 0x2000 <= n <= 0x200a
    || n == 0x2028 || n == 0x2029 || n == 0x202f || n == 0x205f || n == 0x3000 || n == 0xfeff
  }

  function Trim(s: string): string
    decreases |s|
  {
    if s != "" && IsSpace(s[0]) then Trim(s[1..])
    else if s != "" && IsSpace(s[|s| - 1]) then Trim(s[..|s| - 1])
    else s
  }

  /** `map(trim).filter(Boolean)`. */
  function Cleaned(parts: seq<string>): seq<string> {
    if parts == [] then []
    else
      var t := Trim(parts[0]);
      (if t != "" then [t] else []) + Cleaned(parts[1..])
  }

  lemma {:induction false} UuidIsPlain(id: string)
    requires IsUuid(id)
    ensures id != "" && ',' !in id && Trim(id) == id
  {
    assert HexDigit(id[0]) && HexDigit(id[35]);
    forall i | 0 <= i < |id|
      ensures id[i] != ','
    {
      assert i in {8, 13, 18, 23} || HexDigit(id[i]);
    }
  }

  lemma {:induction false} UuidsStayClean(ids: seq<string>)
    requires forall i :: 0 <= i < |ids| ==> IsUuid(ids[i])
    ensures Cleaned(ids) == ids
  {
    hide IsUuid, Trim;
    if ids != [] {
      UuidIsPlain(ids[0]);
      UuidsStayClean(ids[1..]);
    }
  }

  lemma {:induction false} IdsReadBack(ids: seq<string>)
    requires ids != [] && forall i :: 0 <= i < |ids| ==> IsUuid(ids[i])
    ensures Join(ids) != "" && Cleaned(Split(Join(ids))) == ids
  {
    hide IsUuid, Trim, Split;
    forall i | 0 <= i < |ids|
      ensures ',' !in ids[i] && ids[i] != ""
    {
      UuidIsPlain(ids[i]);
    }
    SplitJoin(ids);
    UuidsStayClean(ids);
  }

  // ---- Hashes ----

  /** The six field names of a flag's hash. */
  datatype Field = STRATEGY | PCT | USER_IDS | DESCRIPTION | UPDATED_AT | UPDATED_BY

  type Hash = map<Field, string>

  datatype Value = Value(strategy: string, percentage: Option<int>, userIds: Option<seq<string>>,
                         description: Option<string>, updatedAt: Option<string>, updatedBy: Option<string>)

  /** A field, if the hash has it and it is not the empty string. */
  function NonEmpty(h: Hash, field: Field): Option<string> {
    if field in h && h[field] != "" then Some(h[field]) else None
  }

  /** What a stored hash means; the empty hash is a missing flag. */
  function Read(h: Hash): Option<Value> {
    if h == map[] then None
    else
      Some(Value(
        NonEmpty(h, STRATEGY).GetOr("OFF"),
        if PCT in h then Some(ParseDecimal(h[PCT]).GetOr(0)) else None,
        if NonEmpty(h, USER_IDS).Some? then Some(Cleaned(Split(h[USER_IDS]))) else None,
        NonEmpty(h, DESCRIPTION), NonEmpty(h, UPDATED_AT), NonEmpty(h, UPDATED_BY)))
  }

  datatype Evaluation = Evaluation(enabled: bool, strategy: string, userId: Option<string>, reason: Option<string>)

  function HashBucket(key: string, userId: string, hash: string -> Prefix): (b: int)
    ensures 0 <= b < 100
  {
    hash(Bucketing.HashInput(key, userId)) % 100
  }

  /** `evaluate` on the value read. */
  function Decide(value: Option<Value>, key: string, userId: Option<string>, hash: string -> Prefix): Evaluation {
    if value.None? then Evaluation(false, "OFF", None, Some("flag_not_found"))
    else
      var v := value.value;
      match v.strategy
      case "OFF" => Evaluation(false, "OFF", userId, None)
      case "ON" => Evaluation(true, "ON", userId, None)
      case "USER_LIST" =>
        if userId.GetOr("") == "" then Evaluation(false, "USER_LIST", None, Some("userId_required"))
        else Evaluation(userId.value in v.userIds.GetOr([]), "USER_LIST", userId, None)
      case "PERCENTAGE" =>
        var pct := v.percentage.GetOr(0);
        if pct <= 0 then Evaluation(false, "PERCENTAGE", userId, None)
        else if pct >= 100 then Evaluation(true, "PERCENTAGE", userId, None)
        else if userId.GetOr("") == "" then Evaluation(false, "PERCENTAGE", None, Some("userId_required"))
        else Evaluation(HashBucket(key, userId.value, hash) < pct, "PERCENTAGE", userId, None)
      case _ => Evaluation(false, "OFF", None, Some("unknown_strategy"))
  }

  function Payload(dto: Dto, nowIso: string, updatedBy: Option<string>): Hash
    requires dto.percentage.Some? ==> dto.percentage.value >= 0
  {
    var h: Hash := map[STRATEGY := Name(dto.strategy), UPDATED_AT := nowIso];
    With(With(With(With(h, PCT, if dto.percentage.Some? then Some(Decimal(dto.percentage.value)) else None),
                   USER_IDS, if dto.userIds.GetOr([]) != [] then Some(Join(dto.userIds.value)) else None),
              DESCRIPTION, Kept(dto.description)),
         UPDATED_BY, Kept(updatedBy))
  }

  function With(h: Hash, field: Field, text: Option<string>): Hash {
    if text.Some? then h[field := text.value] else h
  }

  /** Empty lists and texts are not stored and read back as absent. */
  function Kept<T(==)>(x: Option<seq<T>>): Option<seq<T>> {
    if x.GetOr([]) == [] then None else x
  }

  function Stored(hashes: map<string, Hash>, key: string): Hash {
    if key in hashes then hashes[key] else map[]
  }

  class FeatureFlagService {
    /** The hashes `feature_flag:{key}`. */
    var hashes: map<string, Hash>
    const hash: string -> Prefix

    constructor (hash: string -> Prefix)
      ensures this.hash == hash && hashes == map[]
    {
      this.hash := hash;
      hashes := map[];
    }

    /** The fields that `upsert` writes. */
    static method BuildPayload(dto: Dto, nowIso: string, updatedBy: Option<string>) returns (payload: Hash)
      requires dto.percentage.Some? ==> dto.percentage.value >= 0
      ensures payload == Payload(dto, nowIso, updatedBy)
    {
      hide Decimal, Join, Name;
      payload := map[STRATEGY := Name(dto.strategy), UPDATED_AT := nowIso];
      if dto.percentage.Some? {
        payload := payload[PCT := Decimal(dto.percentage.value)];
      }
      if dto.userIds.Some? && |dto.userIds.value| > 0 {
        payload := payload[USER_IDS := Join(dto.userIds.value)];
      }
      if dto.description.Some? && dto.description.value != "" {
        payload := payload[DESCRIPTION := dto.description.value];
      }
      if updatedBy.Some? && updatedBy.value != "" {
        payload := payload[UPDATED_BY := updatedBy.value];
      }
    }

    /** The old hash goes first, so nothing of it is left. */
    method Upsert(dto: Dto, nowIso: string, updatedBy: Option<string>) returns (value: Option<Value>)
      requires dto.percentage.Some? ==> dto.percentage.value >= 0
      modifies this
      ensures hashes == old(hashes)[dto.key := Payload(dto, nowIso, updatedBy)]
      ensures value == Read(Payload(dto, nowIso, updatedBy))
    {
      hide Payload, Read;
      var payload := BuildPayload(dto, nowIso, updatedBy);
      hashes := hashes - {dto.key};
      assert Stored(hashes, dto.key) + payload == payload;
      hashes := hashes[dto.key := Stored(hashes, dto.key) + payload];
      value := ReadValue(dto.key);
    }

    method Delete(key: string) returns (removed: bool)
      modifies this
      ensures hashes == old(hashes) - {key} && (removed <==> key in old(hashes))
    {
      removed := key in hashes;
      hashes := hashes - {key};
    }

    method ReadValue(key: string) returns (value: Option<Value>)
      ensures value == Read(Stored(hashes, key))
    {
      hide ParseDecimal, Cleaned, Split;
      var raw := Stored(hashes, key);
      if raw == map[] {
        return None;
      }
      var strategy := if STRATEGY in raw && raw[STRATEGY] != "" then raw[STRATEGY] else "OFF";
      var v := Value(strategy, None, None, None, None, None);
      if PCT in raw {
        var pct := ParseDecimal(raw[PCT]);
        v := v.(percentage := Some(if pct.Some? then pct.value else 0));
      }
      if USER_IDS in raw && raw[USER_IDS] != "" {
        v := v.(userIds := Some(Cleaned(Split(raw[USER_IDS]))));
      }
      if DESCRIPTION in raw && raw[DESCRIPTION] != "" {
        v := v.(description := Some(raw[DESCRIPTION]));
      }
      if UPDATED_AT in raw && raw[UPDATED_AT] != "" {
        v := v.(updatedAt := Some(raw[UPDATED_AT]));
      }
      if UPDATED_BY in raw && raw[UPDATED_BY] != "" {
        v := v.(updatedBy := Some(raw[UPDATED_BY]));
      }
      return Some(v);
    }

    method Evaluate(key: string, userId: Option<string>) returns (e: Evaluation)
      ensures e == Decide(Read(Stored(hashes, key)), key, userId, hash)
    {
      hide Read;
      var value := ReadValue(key);
      if value.None? {
        return Evaluation(false, "OFF", None, Some("flag_not_found"));
      }
      var named := userId.Some? && userId.value != "";
      match value.value.strategy {
        case "OFF" => return Evaluation(false, "OFF", userId, None);
        case "ON" => return Evaluation(true, "ON", userId, None);
        case "USER_LIST" =>
          if !named {
            return Evaluation(false, "USER_LIST", None, Some("userId_required"));
          }
          var ids := if value.value.userIds.Some? then value.value.userIds.value else [];
          return Evaluation(userId.value in ids, "USER_LIST", userId, None);
        case "PERCENTAGE" =>
          var pct := if value.value.percentage.Some? then value.value.percentage.value else 0;
          if pct <= 0 {
            return Evaluation(false, "PERCENTAGE", userId, None);
          }
          if pct >= 100 {
            return Evaluation(true, "PERCENTAGE", userId, None);
          }
          if !named {
            return Evaluation(false, "PERCENTAGE", None, Some("userId_required"));
          }
          var bucket := HashBucket(key, userId.value, hash);
          return Evaluation(bucket < pct, "PERCENTAGE", userId, None);
        case _ => return Evaluation(false, "OFF", None, Some("unknown_strategy"));
      }
    }
  }

  // ---- Round trip ----

  /** Reading a stored flag gives its dto back, whatever was stored before. */
  lemma {:induction false} FlagReadBack(dto: Dto, nowIso: string, updatedBy: Option<string>)
    requires Valid(dto)
    ensures Read(Payload(dto, nowIso, updatedBy))
      == Some(Value(Name(dto.strategy), dto.percentage, Kept(dto.userIds), Kept(dto.description),
                    Kept(Some(nowIso)), Kept(updatedBy)))
  {
    hide ParseDecimal, Decimal, Cleaned, Split, Join, IsUuid, Bucketing.ValidKey;
    var h := Payload(dto, nowIso, updatedBy);
    assert STRATEGY in h && h[STRATEGY] == Name(dto.strategy) != "";
    if dto.percentage.Some? {
      DecimalReadBack(dto.percentage.value);
    }
    if dto.userIds.GetOr([]) != [] {
      IdsReadBack(dto.userIds.value);
      assert h[USER_IDS] == Join(dto.userIds.value);
    }
  }

  /** Who a dto enables its flag for, without any storage. */
  predicate Enables(dto: Dto, userId: Option<string>, hash: string -> Prefix) {
    var named := userId.Some? && userId.value != "";
    match dto.strategy
    case OFF => false
    case ON => true
    case USER_LIST => named && dto.userIds.Some? && userId.value in dto.userIds.value
    case PERCENTAGE =>
      dto.percentage.Some?
      && (dto.percentage.value == 100 || (named && hash(dto.key + ":" + userId.value) % 100 < dto.percentage.value))
  }

  /** Whose answer depends on the user. */
  predicate NeedsUser(dto: Dto) {
    dto.strategy == USER_LIST
    || (dto.strategy == PERCENTAGE && dto.percentage.Some? && 0 < dto.percentage.value < 100)
  }

  /** The whole answer for a dto, without any storage. */
  function Direct(dto: Dto, userId: Option<string>, hash: string -> Prefix): Evaluation {
    var missing := NeedsUser(dto) && userId.GetOr("") == "";
    Evaluation(Enables(dto, userId, hash), Name(dto.strategy), if missing then None else userId,
               if missing then Some("userId_required") else None)
  }

  /** Evaluating a stored flag is evaluating its dto, for every user; other flags are as before. */
  lemma {:induction false} EvaluateIsDirect(hashes: map<string, Hash>, dto: Dto, nowIso: string,
                                            updatedBy: Option<string>,
                                            userId: Option<string>, hash: string -> Prefix, other: string)
    requires Valid(dto)
    ensures var after := hashes[dto.key := Payload(dto, nowIso, updatedBy)];
      && Decide(Read(Stored(after, dto.key)), dto.key, userId, hash) == Direct(dto, userId, hash)
      && (other != dto.key ==> Stored(after, other) == Stored(hashes, other))
  {
    FlagReadBack(dto, nowIso, updatedBy);
    hide Payload, Read;
    DecideIsDirect(dto, Read(Payload(dto, nowIso, updatedBy)).value, userId, hash);
    hide Direct, Decide, Valid;
  }

  lemma {:induction false} DecideIsDirect(dto: Dto, v: Value, userId: Option<string>, hash: string -> Prefix)
    requires Valid(dto) && v.strategy == Name(dto.strategy) && v.percentage == dto.percentage
      && v.userIds == Kept(dto.userIds)
    ensures Decide(Some(v), dto.key, userId, hash) == Direct(dto, userId, hash)
  {
    hide IsUuid, Bucketing.ValidKey;
    match dto.strategy
    case OFF =>
    case ON =>
    case USER_LIST =>
    case PERCENTAGE =>
  }

  /** A hash that no upsert has written enables nobody unless its strategy is readable, and a percentage
      that is no number counts as zero. */
  lemma {:induction false} OddHashIsOff(h: Hash, key: string, userId: Option<string>, hash: string -> Prefix)
    requires h != map[]
    requires var s := if STRATEGY in h then h[STRATEGY] else "";
      || (s != "ON" && s != "USER_LIST" && s != "PERCENTAGE")
      || (s == "PERCENTAGE" && (PCT !in h || ParseDecimal(h[PCT]).None?))
      || (s == "USER_LIST" && USER_IDS !in h)
    ensures var s := if STRATEGY in h then h[STRATEGY] else ""; var e := Decide(Read(h), key, userId, hash);
      && !e.enabled
      && e.strategy == (if s == "PERCENTAGE" || s == "USER_LIST" then s else "OFF")
      && (e.reason == Some("unknown_strategy") <==> s !in {"", "OFF", "PERCENTAGE", "USER_LIST"})
  {
    hide ParseDecimal, Cleaned, Split;
  }

  /** A missing flag is disabled for everybody. */
  lemma {:induction false} DeletedIsOff(hashes: map<string, Hash>, key: string, userId: Option<string>,
                                        hash: string -> Prefix)
    ensures Decide(Read(Stored(hashes - {key}, key)), key, userId, hash)
      == Evaluation(false, "OFF", None, Some("flag_not_found"))
  {
    hide ParseDecimal, Cleaned, Split;
    assert key !in hashes - {key};
  }

  /** Raising the percentage of a flag disables it for nobody. */
  lemma {:induction false} RaisingDisablesNobody(dto: Dto, pct: int, userId: Option<string>, hash: string -> Prefix)
    requires Valid(dto) && dto.strategy == PERCENTAGE && dto.percentage.Some? && dto.percentage.value <= pct <= 100
    requires Enables(dto, userId, hash)
    ensures Enables(dto.(percentage := Some(pct)), userId, hash)
  {
    hide Bucketing.ValidKey, IsUuid;
  }

  /** The named user is enabled if its hash prefix is p. */
  predicate EnabledAt(dto: Dto, user: string, p: Prefix) {
    Enables(dto, Some(user), _ => p)
  }

  /** A flag at pct percent is enabled for exactly pct of the 100 buckets, and of the 2^32 hash prefixes
      for 42949672 * pct and the smaller of pct and 96 more. */
  lemma {:induction false} ExactRollout(dto: Dto, user: string)
    requires Valid(dto) && dto.strategy == PERCENTAGE && dto.percentage.Some? && user != ""
    ensures |set b: Prefix | b < 100 && EnabledAt(dto, user, b)| == dto.percentage.value
    ensures |set p: Prefix | p < Bucketing.PREFIXES && EnabledAt(dto, user, p)|
      == 42949672 * dto.percentage.value + if dto.percentage.value < 96 then dto.percentage.value else 96
  {
    hide Bucketing.ValidKey, IsUuid;
    var pct := dto.percentage.value;
    forall p: Prefix
      ensures EnabledAt(dto, user, p) <==> Bucketing.Hit(p, 100, 0, pct)
    {
    }
    Bucketing.HitsCount(100, 100, 0, pct);
    Bucketing.ExactShare(100, 100, 0, pct);
    Bucketing.HitsCount(Bucketing.PREFIXES, 100, 0, pct);
    Bucketing.ExactShare(Bucketing.PREFIXES, 100, 0, pct);
    hide EnabledAt, Bucketing.Hit;
    assert (set b: Prefix | b < 100 && EnabledAt(dto, user, b)) == Bucketing.HitSet(100, 100, 0, pct);
    assert (set p: Prefix | p < Bucketing.PREFIXES && EnabledAt(dto, user, p))
      == Bucketing.HitSet(Bucketing.PREFIXES, 100, 0, pct);
  }
}
