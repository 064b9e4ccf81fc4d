/**
 * The strength signal shared by the three scorers: points for length and for
 * character variety, and the ratings they map to. Character classes are the
 * ASCII ones (`[a-z]`, `[A-Z]`, `[0-9]`, and anything else).
 */
module Strength {
  import opened CharPool

  /** A rating. The web page shows `Unrated` as "None", the browser script as 'none'. */
  datatype Rating = Unrated | Weak | Fair | Good | Strong

  /** Position of a rating on the scale, for stating monotonicity. */
  function Rank(r: Rating): nat {
    match r
    case Unrated => 0
    case Weak => 1
    case Fair => 2
    case Good => 3
    case Strong => 4
  }

  predicate IsLower(c: char) { 'a' <= c <= 'z' }
  predicate IsUpper(c: char) { 'A' <= c <= 'Z' }
  predicate IsDigit(c: char) { '0' <= c <= '9' }
  /** Neither letter nor digit: Python's `not c.isalnum()`, the regex class `[^a-zA-Z0-9]`. */
  predicate IsOther(c: char) { !IsLower(c) && !IsUpper(c) && !IsDigit(c) }

  predicate HasLower(p: string) { exists k :: 0 <= k < |p| && IsLower(p[k]) }
  predicate HasUpper(p: string) { exists k :: 0 <= k < |p| && IsUpper(p[k]) }
  predicate HasDigit(p: string) { exists k :: 0 <= k < |p| && IsDigit(p[k]) }
  predicate HasOther(p: string) { exists k :: 0 <= k < |p| && IsOther(p[k]) }

  /** One point for each of the thresholds 8, 12 and 16 that the length reaches. */
  function LengthPoints(n: nat): (r: nat)
    ensures r <= 3
    ensures r == 0 <==> n < 8
    ensures r == 3 <==> n >= 16
  {
    (if n >= 8 then 1 else 0) + (if n >= 12 then 1 else 0) + (if n >= 16 then 1 else 0)
  }

  /** One point for each class the password contains. */
  function VarietyPoints(p: string): (r: nat)
    ensures r <= 4
    ensures r == 4 <==> HasLower(p) && HasUpper(p) && HasDigit(p) && HasOther(p)
    ensures p != [] ==> r >= 1
  {
    assert p != [] ==> IsLower(p[0]) || IsUpper(p[0]) || IsDigit(p[0]) || IsOther(p[0]);
    (if HasLower(p) then 1 else 0) + (if HasUpper(p) then 1 else 0)
    + (if HasDigit(p) then 1 else 0) + (if HasOther(p) then 1 else 0)
  }

  /** The 7-point score: length thresholds plus character variety. */
  function Score7(p: string): (r: nat)
    ensures r <= 7
    ensures |p| < 8 ==> r <= 4
    ensures r == 7 <==> |p| >= 16 && HasLower(p) && HasUpper(p) && HasDigit(p) && HasOther(p)
  {
    LengthPoints(|p|) + VarietyPoints(p)
  }

  /** The 7-point scale: at most 2 is weak, at most 4 fair, at most 6 good, above that strong. */
  function Label7(score: int): (r: Rating)
    ensures r != Unrated
  {
    if score <= 2 then Weak
    else if score <= 4 then Fair
    else if score <= 6 then Good
    else Strong
  }

  /** A higher score never gets a lower rating on the 7-point scale. */
  lemma Label7Monotone(s: int, t: int)
    requires s <= t
    ensures Rank(Label7(s)) <= Rank(Label7(t))
  {
  }

  /** Extending a password keeps every class it already contains. */
  lemma ClassesPersist(p: string, q: string)
    ensures HasLower(p) ==> HasLower(p + q)
    ensures HasUpper(p) ==> HasUpper(p + q)
    ensures HasDigit(p) ==> HasDigit(p + q)
    ensures HasOther(p) ==> HasOther(p + q)
  {
    if HasLower(p) { var k :| 0 <= k < |p| && IsLower(p[k]); assert (p + q)[k] == p[k]; }
    if HasUpper(p) { var k :| 0 <= k < |p| && IsUpper(p[k]); assert (p + q)[k] == p[k]; }
    if HasDigit(p) { var k :| 0 <= k < |p| && IsDigit(p[k]); assert (p + q)[k] == p[k]; }
    if HasOther(p) { var k :| 0 <= k < |p| && IsOther(p[k]); assert (p + q)[k] == p[k]; }
  }

  /** Appending characters never lowers the 7-point score. */
  lemma Score7Extend(p: string, q: string)
    ensures Score7(p) <= Score7(p + q)
  {
    ClassesPersist(p, q);
  }

  /** The class points of a password depend only on which characters it contains. */
  lemma VarietyBySet(p: string, q: string)
    requires forall c :: c in p <==> c in q
    ensures VarietyPoints(p) == VarietyPoints(q)
  {
    if HasLower(p) { var k :| 0 <= k < |p| && IsLower(p[k]); assert p[k] in q; }
    if HasLower(q) { var k :| 0 <= k < |q| && IsLower(q[k]); assert q[k] in p; }
    if HasUpper(p) { var k :| 0 <= k < |p| && IsUpper(p[k]); assert p[k] in q; }
    if HasUpper(q) { var k :| 0 <= k < |q| && IsUpper(q[k]); assert q[k] in p; }
    if HasDigit(p) { var k :| 0 <= k < |p| && IsDigit(p[k]); assert p[k] in q; }
    if HasDigit(q) { var k :| 0 <= k < |q| && IsDigit(q[k]); assert q[k] in p; }
    if HasOther(p) { var k :| 0 <= k < |p| && IsOther(p[k]); assert p[k] in q; }
    if HasOther(q) { var k :| 0 <= k < |q| && IsOther(q[k]); assert q[k] in p; }
  }

  /** Reordering a password, as a shuffle does, keeps its 7-point score. */
  lemma Score7Reorder(p: string, q: string)
    requires multiset(p) == multiset(q)
    ensures Score7(p) == Score7(q)
  {
    assert |p| == |multiset(p)| == |q|;
    forall c
      ensures c in p <==> c in q
    {
      assert c in p <==> c in multiset(p);
      assert c in q <==> c in multiset(q);
    }
    VarietyBySet(p, q);
  }

  /** Each alphabet lies inside its class, so a character seeded from it earns that class point. */
  lemma AlphabetClasses(c: char)
    ensures c in Upper ==> IsUpper(c)
    ensures c in Lower ==> IsLower(c)
    ensures c in Digits ==> IsDigit(c)
    ensures c in Symbols ==> IsOther(c)
  {
    assert forall k :: 0 <= k < |Upper| ==> IsUpper(Upper[k]);
    assert forall k :: 0 <= k < |Lower| ==> IsLower(Lower[k]);
    assert forall k :: 0 <= k < |Digits| ==> IsDigit(Digits[k]);
    assert forall k :: 0 <= k < |Symbols| ==> IsOther(Symbols[k]);
  }
}
