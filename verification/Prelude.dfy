/** Vocabulary shared by the models: optional values, expiring Redis keys and
    the few facts about finite sets that the counting proofs need. */
module Prelude {

  datatype Option<+T> = None | Some(value: T) {
    function GetOr(default: T): T {
      match this
      case Some(v) => v
      case None => default
    }
  }

  /** A Redis value written with `EX`: times are milliseconds, and a key is still
      present at its expiry instant. */
  datatype Expiring<+T> = Expiring(value: T, expiresAt: int) {
    predicate Live(now: int) {
      now <= expiresAt
    }
  }

  ghost predicate Distinct<T(!new)>(s: seq<T>) {
    forall i, j :: 0 <= i < j < |s| ==> s[i] != s[j]
  }

  function Elements<T>(s: seq<T>): set<T> {
    set x | x in s
  }

  /** One more element of a sequence is one more element of the set of its prefix. */
  lemma {:induction false} PrefixElements<T(!new)>(s: seq<T>, i: nat)
    requires i < |s|
    ensures Elements(s[..i + 1]) == Elements(s[..i]) + {s[i]}
    ensures Distinct(s) ==> s[i] !in Elements(s[..i])
    ensures Elements(s[..0]) == {} && Elements(s[..|s|]) == Elements(s)
  {
    assert s[..i + 1] == s[..i] + [s[i]] && s[..|s|] == s;
  }

  lemma {:induction false} DistinctSize<T(!new)>(s: seq<T>)
    requires Distinct(s)
    ensures |Elements(s)| == |s|
  {
    if s != [] {
      var n := |s| - 1;
      DistinctSize(s[..n]);
      PrefixElements(s, n);
      CardAdd(Elements(s[..n]), Elements(s), s[n]);
    }
  }

  lemma {:induction false} ConcatAssociates<T>(a: seq<T>, b: seq<T>, c: seq<T>)
    ensures (a + b) + c == a + (b + c)
  {
  }

  /** Adding one element that was missing grows a set by exactly one. */
  lemma CardAdd<T>(a: set<T>, b: set<T>, x: T)
    requires x !in a && b == a + {x}
    ensures |b| == |a| + 1
  {
  }

  /** Size of a set after one element left it and at most one other entered. */
  lemma {:induction false} CardReplace<T>(before: set<T>, after: set<T>, out: T, gain: Option<T>)
    requires after == (before - {out}) + if gain.Some? then {gain.value} else {}
    requires gain.Some? ==> gain.value !in before - {out}
    ensures |after| == |before| - (if out in before then 1 else 0) + (if gain.Some? then 1 else 0)
  {
    var stay := before - {out};
    if out in before {
      CardAdd(stay, before, out);
    } else {
      assert stay == before;
    }
    if gain.Some? {
      CardAdd(stay, after, gain.value);
    } else {
      assert after == stay;
    }
  }

  /** Sizes of two sets that agree on everything but one element. */
  lemma {:induction false} CardDiffer<T>(a: set<T>, b: set<T>, x: T)
    requires a - {x} == b - {x}
    ensures |b| - |a| == (if x in b then 1 else 0) - (if x in a then 1 else 0)
  {
    CardReplace(a, b, x, if x in b then Some(x) else None);
  }

  lemma {:induction false} RemoveTwice<K, V>(m: map<K, V>, a: set<K>, x: K)
    ensures (m - a) - {x} == m - (a + {x})
  {
  }

  /** A subset is never larger, and an equally large subset is the whole set. */
  lemma {:induction false} CardSubset<T>(a: set<T>, b: set<T>)
    requires a <= b
    ensures |a| <= |b|
    ensures |a| == |b| ==> a == b
  {
    assert b == a + (b - a);
    assert |b| == |a| + |b - a|;
  }
}
