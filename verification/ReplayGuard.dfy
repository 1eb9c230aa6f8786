/** The guard of internal calls: a signed timestamp within 30 seconds, and a nonce that is remembered. */
module ReplayGuard {
  import opened Prelude

  const TOLERANCE_MS := 30_000
  const NONCE_TTL_MS := 60_000

  /** Headers (absent or present) and the serialized body. */
  datatype Request = Request(ts: Option<string>, nonce: Option<string>, sig: Option<string>, body: string) {
    predicate Complete() {
      ts.Some? && ts.value != "" && nonce.Some? && nonce.value != "" && sig.Some? && sig.value != ""
    }

    /** What the signature is over. */
    function Text(): string
      requires Complete()
    {
      ts.value + "." + nonce.value + "." + body
    }
  }

  /** The foreign parts: `Number(ts)` where it is finite, the configured secret, and whether a signature
      is the HMAC of a text under it. */
  datatype Config = Config(number: string -> Option<real>, secret: Option<string>,
                           signed: (string, string, string) -> bool)

  datatype Verdict = Missing | Stale | Misconfigured | BadSignature | Replay | Accepted

  /** Expiry instants of the stored nonces. */
  type Nonces = map<string, int>

  predicate FreshAt(t: real, now: int) {
    -(TOLERANCE_MS as real) <= now as real - t <= TOLERANCE_MS as real
  }

  predicate Remembered(nonces: Nonces, nonce: string, now: int) {
    nonce in nonces && now <= nonces[nonce]
  }

  /** The decision and the SET NX EX that goes with it, for nonces kept `ttl` milliseconds. */
  function Decide(nonces: Nonces, c: Config, r: Request, now: int, ttl: int): (Nonces, Verdict) {
    if !r.Complete() then (nonces, Missing)
    else
      var t := c.number(r.ts.value);
      if t.None? || !FreshAt(t.value, now) then (nonces, Stale)
      else if c.secret.None? || |c.secret.value| < 32 then (nonces, Misconfigured)
      else if !c.signed(c.secret.value, r.Text(), r.sig.value) then (nonces, BadSignature)
      else if Remembered(nonces, r.nonce.value, now) then (nonces, Replay)
      else (nonces[r.nonce.value := now + ttl], Accepted)
  }

  class InternalTokenGuard {
    const config: Config
    var nonces: map<string, int>

    constructor (config: Config)
      ensures this.config == config && nonces == map[]
    {
      this.config, nonces := config, map[];
    }

    method CanActivate(r: Request, now: int) returns (v: Verdict)
      modifies this
      ensures (nonces, v) == Decide(old(nonces), config, r, now, NONCE_TTL_MS)
    {
      if r.ts.None? || r.ts.value == "" || r.nonce.None? || r.nonce.value == "" || r.sig.None? || r.sig.value == "" {
        return Missing;
      }
      var t := config.number(r.ts.value);
      if t.None? {
        return Stale;
      }
      var distance := if now as real >= t.value then now as real - t.value else t.value - now as real;
      if distance > TOLERANCE_MS as real {
        return Stale;
      }
      if config.secret.None? || |config.secret.value| < 32 {
        return Misconfigured;
      }
      var text := r.ts.value + "." + r.nonce.value + "." + r.body;
      if !config.signed(config.secret.value, text, r.sig.value) {
        return BadSignature;
      }
      if r.nonce.value in nonces && now <= nonces[r.nonce.value] {
        return Replay;
      }
      nonces := nonces[r.nonce.value := now + NONCE_TTL_MS];
      return Accepted;
    }
  }

  // ---- Runs ----

  datatype Arrival = Arrival(request: Request, now: int)

  /** The nonces after a run of requests, and the verdict on each. */
  function Run(c: Config, arrivals: seq<Arrival>, ttl: int): (Nonces, seq<Verdict>) {
    if arrivals == [] then (map[], [])
    else
      var n := |arrivals| - 1;
      var (nonces, verdicts) := Run(c, arrivals[..n], ttl);
      var (after, v) := Decide(nonces, c, arrivals[n].request, arrivals[n].now, ttl);
      (after, verdicts + [v])
  }

  ghost predicate InTimeOrder(arrivals: seq<Arrival>) {
    forall i, j :: 0 <= i < j < |arrivals| ==> arrivals[i].now <= arrivals[j].now
  }

  ghost predicate AcceptedAt(c: Config, arrivals: seq<Arrival>, ttl: int, i: int) {
    0 <= i < |arrivals| && i < |Run(c, arrivals, ttl).1| && Run(c, arrivals, ttl).1[i] == Accepted
  }

  /** Verdicts are final: later requests do not change them. */
  lemma {:induction false} VerdictsStand(c: Config, arrivals: seq<Arrival>, ttl: int, i: int)
    requires 0 <= i < |arrivals| - 1
    ensures |Run(c, arrivals, ttl).1| == |Run(c, arrivals[..|arrivals| - 1], ttl).1| + 1
    ensures AcceptedAt(c, arrivals, ttl, i) <==> AcceptedAt(c, arrivals[..|arrivals| - 1], ttl, i)
  {
    VerdictPerArrival(c, arrivals, ttl);
    VerdictPerArrival(c, arrivals[..|arrivals| - 1], ttl);
  }

  lemma {:induction false} VerdictPerArrival(c: Config, arrivals: seq<Arrival>, ttl: int)
    ensures |Run(c, arrivals, ttl).1| == |arrivals|
  {
    if arrivals != [] {
      VerdictPerArrival(c, arrivals[..|arrivals| - 1], ttl);
    }
  }

  /** Only complete, correctly signed requests whose timestamp is within the tolerance are accepted. */
  lemma {:induction false} AcceptedIsFresh(c: Config, arrivals: seq<Arrival>, ttl: int, i: int)
    requires AcceptedAt(c, arrivals, ttl, i)
    ensures var r := arrivals[i].request;
      && r.Complete() && c.number(r.ts.value).Some? && FreshAt(c.number(r.ts.value).value, arrivals[i].now)
      && c.secret.Some? && |c.secret.value| >= 32
      && c.signed(c.secret.value, r.Text(), r.sig.value)
  {
    VerdictPerArrival(c, arrivals[..|arrivals| - 1], ttl);
    if i < |arrivals| - 1 {
      VerdictsStand(c, arrivals, ttl, i);
      AcceptedIsFresh(c, arrivals[..|arrivals| - 1], ttl, i);
    }
  }

  /** A nonce stays remembered for at least `ttl` after each acceptance. */
  lemma {:induction false} NonceKept(c: Config, arrivals: seq<Arrival>, ttl: int, i: int)
    requires InTimeOrder(arrivals) && AcceptedAt(c, arrivals, ttl, i)
    ensures var nonce := arrivals[i].request.nonce; var nonces := Run(c, arrivals, ttl).0;
      nonce.Some? && nonce.value in nonces && nonces[nonce.value] >= arrivals[i].now + ttl
  {
    VerdictPerArrival(c, arrivals[..|arrivals| - 1], ttl);
    if i < |arrivals| - 1 {
      VerdictsStand(c, arrivals, ttl, i);
      NonceKept(c, arrivals[..|arrivals| - 1], ttl, i);
    }
  }

  /** Two acceptances of one nonce are more than `ttl` apart. */
  lemma {:induction false} NonceSpacing(c: Config, arrivals: seq<Arrival>, ttl: int, i: int, j: int)
    requires InTimeOrder(arrivals) && i < j && AcceptedAt(c, arrivals, ttl, i) && AcceptedAt(c, arrivals, ttl, j)
    requires arrivals[i].request.nonce == arrivals[j].request.nonce
    ensures arrivals[j].now > arrivals[i].now + ttl
  {
    var before := arrivals[..|arrivals| - 1];
    VerdictPerArrival(c, before, ttl);
    VerdictsStand(c, arrivals, ttl, i);
    if j < |arrivals| - 1 {
      VerdictsStand(c, arrivals, ttl, j);
      NonceSpacing(c, before, ttl, i, j);
    } else {
      NonceKept(c, before, ttl, i);
    }
  }

  /** Whatever is remembered was accepted, and expires `ttl` after an acceptance. */
  lemma {:induction false} NonceFromLog(c: Config, arrivals: seq<Arrival>, ttl: int, nonce: string)
    requires nonce in Run(c, arrivals, ttl).0
    ensures exists i :: AcceptedAt(c, arrivals, ttl, i) && arrivals[i].request.nonce == Some(nonce)
                     && Run(c, arrivals, ttl).0[nonce] == arrivals[i].now + ttl
  {
    var n := |arrivals| - 1;
    var before := arrivals[..n];
    VerdictPerArrival(c, before, ttl);
    var v := Decide(Run(c, before, ttl).0, c, arrivals[n].request, arrivals[n].now, ttl).1;
    if v == Accepted && arrivals[n].request.nonce == Some(nonce) {
      assert AcceptedAt(c, arrivals, ttl, n);
    } else {
      NonceFromLog(c, before, ttl, nonce);
      var i :| AcceptedAt(c, before, ttl, i) && before[i].request.nonce == Some(nonce)
            && Run(c, before, ttl).0[nonce] == before[i].now + ttl;
      VerdictsStand(c, arrivals, ttl, i);
      assert AcceptedAt(c, arrivals, ttl, i);
    }
  }

  /** The nonce of the i-th request was accepted before, at most `ttl` milliseconds earlier. */
  ghost predicate SeenBefore(c: Config, arrivals: seq<Arrival>, ttl: int, i: int)
    requires 0 <= i < |arrivals|
  {
    exists j :: 0 <= j < i && AcceptedAt(c, arrivals, ttl, j)
             && arrivals[j].request.nonce == arrivals[i].request.nonce && arrivals[i].now <= arrivals[j].now + ttl
  }

  predicate Filled(header: Option<string>) {
    header.Some? && header.value != ""
  }

  /** The verdict on the last request, from the requests and verdicts before it alone. */
  lemma {:induction false} VerdictFromLog(c: Config, arrivals: seq<Arrival>, ttl: int)
    requires InTimeOrder(arrivals) && arrivals != []
    ensures var n := |arrivals| - 1; var r, now := arrivals[n].request, arrivals[n].now;
      |Run(c, arrivals, ttl).1| == |arrivals| && Run(c, arrivals, ttl).1[..n] == Run(c, arrivals[..n], ttl).1
      && Run(c, arrivals, ttl).1[n] ==
        if !Filled(r.ts) || !Filled(r.nonce) || !Filled(r.sig) then Missing
        else if c.number(r.ts.value).None? then Stale
        else if c.number(r.ts.value).value < (now - 30_000) as real then Stale
        else if c.number(r.ts.value).value > (now + 30_000) as real then Stale
        else if |c.secret.GetOr("")| < 32 then Misconfigured
        else if !c.signed(c.secret.value, r.ts.value + "." + r.nonce.value + "." + r.body, r.sig.value)
          then BadSignature
        else if SeenBefore(c, arrivals, ttl, n) then Replay
        else Accepted
  {
    var n := |arrivals| - 1;
    var before := arrivals[..n];
    VerdictPerArrival(c, before, ttl);
    VerdictPerArrival(c, arrivals, ttl);
    if arrivals[n].request.Complete() {
      RememberedIsSeen(c, arrivals, ttl);
    }
    hide SeenBefore, InTimeOrder;
  }

  lemma {:induction false} RememberedIsSeen(c: Config, arrivals: seq<Arrival>, ttl: int)
    requires InTimeOrder(arrivals) && arrivals != [] && arrivals[|arrivals| - 1].request.Complete()
    ensures var n := |arrivals| - 1;
      Remembered(Run(c, arrivals[..n], ttl).0, arrivals[n].request.nonce.value, arrivals[n].now) <==>
        SeenBefore(c, arrivals, ttl, n)
  {
    var n := |arrivals| - 1;
    var before, nonces := arrivals[..n], Run(c, arrivals[..n], ttl).0;
    var nonce := arrivals[n].request.nonce.value;
    hide Run, Request.Complete;
    if Remembered(nonces, nonce, arrivals[n].now) {
      NonceFromLog(c, before, ttl, nonce);
      var j :| AcceptedAt(c, before, ttl, j) && before[j].request.nonce == Some(nonce)
            && nonces[nonce] == before[j].now + ttl;
      VerdictsStand(c, arrivals, ttl, j);
    }
    if SeenBefore(c, arrivals, ttl, n) {
      var j :| 0 <= j < n && AcceptedAt(c, arrivals, ttl, j)
            && arrivals[j].request.nonce == arrivals[n].request.nonce && arrivals[n].now <= arrivals[j].now + ttl;
      VerdictsStand(c, arrivals, ttl, j);
      NonceKept(c, before, ttl, j);
    }
  }

  /** With nonces kept for 60 seconds (or longer) a signed timestamp and nonce are accepted at most
      once, over any run of requests in time order. */
  lemma {:induction false} AcceptedOnce(c: Config, arrivals: seq<Arrival>, ttl: int, i: int, j: int)
    requires ttl >= NONCE_TTL_MS
    requires InTimeOrder(arrivals) && i < j && AcceptedAt(c, arrivals, ttl, i) && AcceptedAt(c, arrivals, ttl, j)
    ensures (arrivals[i].request.ts, arrivals[i].request.nonce) != (arrivals[j].request.ts, arrivals[j].request.nonce)
  {
    if (arrivals[i].request.ts, arrivals[i].request.nonce) == (arrivals[j].request.ts, arrivals[j].request.nonce) {
      NonceSpacing(c, arrivals, ttl, i, j);
      AcceptedIsFresh(c, arrivals, ttl, i);
      AcceptedIsFresh(c, arrivals, ttl, j);
    }
  }

  /** The lifetime is tight: kept for any shorter time, a nonce lets its request in twice, at the two
      ends of the tolerance. */
  lemma {:induction false} ShorterLifetimeReplays(c: Config, r: Request, t: int, ttl: int)
    requires ttl < NONCE_TTL_MS
    requires r.Complete() && c.number(r.ts.value) == Some(t as real)
    requires c.secret.Some? && |c.secret.value| >= 32
    requires c.signed(c.secret.value, r.Text(), r.sig.value)
    ensures var arrivals := [Arrival(r, t - TOLERANCE_MS), Arrival(r, t + TOLERANCE_MS)];
      InTimeOrder(arrivals) && AcceptedAt(c, arrivals, ttl, 0) && AcceptedAt(c, arrivals, ttl, 1)
  {
    var arrivals := [Arrival(r, t - TOLERANCE_MS), Arrival(r, t + TOLERANCE_MS)];
    var one := [arrivals[0]];
    assert arrivals[..1] == one && one[..0] == [];
    var none: seq<Verdict> := [];
    assert Run(c, [], ttl) == (map[], none) && none + [Accepted] == [Accepted];
    var nonces: Nonces := map[r.nonce.value := t - TOLERANCE_MS + ttl];
    assert Decide(map[], c, r, t - TOLERANCE_MS, ttl) == (nonces, Accepted);
    assert Run(c, one, ttl) == (nonces, [Accepted]);
    assert Run(c, arrivals, ttl).1 == [Accepted, Accepted];
  }

  // ---- One acceptance per signed text ----

  predicate DotFree(text: string) {
    '.' !in text
  }

  function FirstDot(text: string): nat {
    if text == "" || text[0] == '.' then 0 else 1 + FirstDot(text[1..])
  }

  lemma {:induction false} FirstDotAfter(part: string, rest: string)
    requires DotFree(part)
    ensures FirstDot(part + ("." + rest)) == |part|
  {
    var text := part + ("." + rest);
    if part == "" {
      assert text[0] == '.';
    } else {
      FirstDotAfter(part[1..], rest);
      assert text[1..] == part[1..] + ("." + rest);
    }
  }

  /** A part without dots and what follows it can be told apart. */
  lemma {:induction false} SplitsOnce(part: string, rest: string, other: string, otherRest: string)
    requires DotFree(part) && DotFree(other) && part + ("." + rest) == other + ("." + otherRest)
    ensures part == other && rest == otherRest
  {
    FirstDotAfter(part, rest);
    FirstDotAfter(other, otherRest);
    var text, n := part + ("." + rest), |part|;
    assert part == text[..n] && other == text[..n] && rest == text[n + 1..] && otherRest == text[n + 1..];
  }

  predicate Undotted(r: Request) {
    r.Complete() && DotFree(r.ts.value) && DotFree(r.nonce.value)
  }

  /** A text has one reading without dots in its timestamp and nonce. */
  lemma {:induction false} OneReading(r: Request, q: Request)
    requires Undotted(r) && Undotted(q) && r.Text() == q.Text()
    ensures (r.ts, r.nonce, r.body) == (q.ts, q.nonce, q.body)
  {
    var a, b := r.nonce.value + ("." + r.body), q.nonce.value + ("." + q.body);
    assert r.Text() == r.ts.value + ("." + a) && q.Text() == q.ts.value + ("." + b);
    SplitsOnce(r.ts.value, a, q.ts.value, b);
    SplitsOnce(r.nonce.value, r.body, q.nonce.value, q.body);
  }

  /** Over any run a signed text is accepted at most once, if neither timestamps nor nonces contain a
      dot; the sender's are whole milliseconds and uuids. */
  lemma {:induction false} TextAcceptedOnce(c: Config, arrivals: seq<Arrival>, ttl: int, i: int, j: int)
    requires ttl >= NONCE_TTL_MS
    requires InTimeOrder(arrivals) && i < j && AcceptedAt(c, arrivals, ttl, i) && AcceptedAt(c, arrivals, ttl, j)
    requires Undotted(arrivals[i].request) && Undotted(arrivals[j].request)
    ensures arrivals[i].request.Text() != arrivals[j].request.Text()
  {
    AcceptedOnce(c, arrivals, ttl, i, j);
    if arrivals[i].request.Text() == arrivals[j].request.Text() {
      OneReading(arrivals[i].request, arrivals[j].request);
    }
  }

  /** Another reading of an accepted text, with the same signature and a timestamp that is fresh too, is
      accepted next exactly if its nonce is a different one that is not remembered. */
  lemma {:induction false} OtherReadingExactly(nonces: Nonces, c: Config, r: Request, q: Request, now: int, ttl: nat)
    requires Decide(nonces, c, r, now, ttl).1 == Accepted && q.Complete() && q.Text() == r.Text() && q.sig == r.sig
    requires c.number(q.ts.value).Some? && FreshAt(c.number(q.ts.value).value, now)
    ensures Decide(Decide(nonces, c, r, now, ttl).0, c, q, now, ttl).1 == Accepted
      <==> q.nonce != r.nonce && !Remembered(nonces, q.nonce.value, now)
  {
  }

  /** A nonce with a dot gives such a reading: what stands before the dot moves to the timestamp. */
  lemma {:induction false} DottedNonceReplays(c: Config, ts: string, a: string, b: string, sig: string, body: string,
                                              now: int, ttl: nat)
    requires ts != "" && b != "" && sig != "" && a + "." + b != b
    requires c.number(ts).Some? && FreshAt(c.number(ts).value, now)
    requires c.number(ts + "." + a).Some? && FreshAt(c.number(ts + "." + a).value, now)
    requires c.secret.Some? && |c.secret.value| >= 32
    requires c.signed(c.secret.value, Request(Some(ts), Some(a + "." + b), Some(sig), body).Text(), sig)
    ensures var r := Request(Some(ts), Some(a + "." + b), Some(sig), body);
      var q := Request(Some(ts + "." + a), Some(b), Some(sig), body);
      var (nonces, verdict) := Decide(map[], c, r, now, ttl);
      q.Text() == r.Text() && verdict == Accepted && Decide(nonces, c, q, now, ttl).1 == Accepted
  {
    var r := Request(Some(ts), Some(a + "." + b), Some(sig), body);
    var q := Request(Some(ts + "." + a), Some(b), Some(sig), body);
    var text := ts + "." + a + "." + b + "." + body;
    assert r.Text() == text && q.Text() == text;
    OtherReadingExactly(map[], c, r, q, now, ttl);
  }
}
