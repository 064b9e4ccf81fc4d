/**
 * The desktop form: `generate_password` reads the form's settings, filters
 * each alphabet, builds the pool and draws either plainly or under the
 * security rules (`generate_secure_password`); `analyze_password_strength`
 * scores the result on the 8-point scale. The error dialogs the form shows
 * are modelled as a returned `Dialog`.
 */
module DesktopForm {
  import opened CharPool
  import opened Strength

  const MinLength: int := 4
  const MaxLength: int := 50
  const MaxScore: int := 8

  const NoCategoryMessage: string := "Please select at least one character type!"
  const NoCharsMessage: string := "No characters available after exclusions!"
  /** The text of the IndexError that `random.choice` raises on an empty sequence. */
  const EmptyChoiceMessage: string := "Cannot choose from an empty sequence"
  const ErrorOccurredPrefix: string := "An error occurred: "

  /** A value, or the message of the exception raised while computing it. */
  datatype Result<T> = Ok(value: T) | Raised(message: string)

  /** The dialog a click on "Generate" ends with. */
  datatype Dialog = NoDialog | ErrorDialog(message: string)

  /** Two neighbouring characters are equal. */
  predicate HasAdjacentRepeat(p: string) {
    exists i :: 0 <= i < |p| - 1 && p[i] == p[i + 1]
  }

  /** Every character of `s` is the same one. */
  predicate AllSame(s: string) {
    forall i, j :: 0 <= i < |s| && 0 <= j < |s| ==> s[i] == s[j]
  }

  /** Some character of `s` belongs to `alphabet`. */
  predicate Covers(s: string, alphabet: string) {
    exists k :: 0 <= k < |s| && s[k] in alphabet
  }

  function Max(a: int, b: int): int {
    if a < b then b else a
  }

  /** How many seed characters the security rules add: one per enabled, non-empty alphabet. */
  function SeedCount(cats: Categories, upper: string, lower: string, digits: string, symbols: string): (r: nat)
    ensures r <= 4
    ensures r == 0 <==> Join(cats, upper, lower, digits, symbols) == []
  {
    (if cats.upper && upper != [] then 1 else 0) + (if cats.lower && lower != [] then 1 else 0)
    + (if cats.numbers && digits != [] then 1 else 0) + (if cats.symbols && symbols != [] then 1 else 0)
  }

  /** Covering an alphabet survives adding characters and reordering. */
  lemma CoversContained(s: string, t: string, alphabet: string)
    requires multiset(s) <= multiset(t)
    requires Covers(s, alphabet)
    ensures Covers(t, alphabet)
  {
    var k :| 0 <= k < |s| && s[k] in alphabet;
    assert s[k] in multiset(s);
    assert s[k] in multiset(t);
    var j :| 0 <= j < |t| && t[j] == s[k];
  }

  /** A reordering of a string over the pool is still over the pool. */
  lemma PermutationWithin(s: string, t: string, pool: string)
    requires multiset(s) == multiset(t)
    requires forall k :: 0 <= k < |s| ==> s[k] in pool
    ensures forall k :: 0 <= k < |t| ==> t[k] in pool
  {
    forall k | 0 <= k < |t|
      ensures t[k] in pool
    {
      assert t[k] in multiset(s);
    }
  }

  /** The characters of the pool other than `c`: empty exactly when `c` is the pool's only character. */
  lemma OthersEmpty(pool: string, c: char)
    requires c in pool
    ensures Without(pool, {c}) == [] <==> AllSame(pool)
  {
    if Without(pool, {c}) == [] {
      forall i | 0 <= i < |pool| ensures pool[i] == c {
        assert pool[i] in pool;
      }
    } else {
      var d := Without(pool, {c})[0];
      assert d in Without(pool, {c});
      var i :| 0 <= i < |pool| && pool[i] == d;
      var j :| 0 <= j < |pool| && pool[j] == c;
      assert pool[i] != pool[j];
    }
  }

  /** 1 when a seeding line fires (its category enabled and its alphabet non-empty), else 0. */
  function Seeded(enabled: bool, alphabet: string): nat {
    if enabled && alphabet != [] then 1 else 0
  }

  /** `c` belongs to one of the enabled alphabets. */
  predicate InEnabled(c: char, cats: Categories, upper: string, lower: string, digits: string, symbols: string) {
    (cats.upper && c in upper) || (cats.lower && c in lower) ||
    (cats.numbers && c in digits) || (cats.symbols && c in symbols)
  }

  /**
   * The seeding step of `generate_secure_password`: one arbitrary character
   * from each enabled, non-empty alphabet, in the order upper, lower, digits,
   * symbols, so the seed of each category sits right after those before it.
   */
  method SeedCategories(upper: string, lower: string, digits: string, symbols: string, cats: Categories)
    returns (seeds: string)
    ensures |seeds| == SeedCount(cats, upper, lower, digits, symbols)
    ensures forall k :: 0 <= k < |seeds| ==> InEnabled(seeds[k], cats, upper, lower, digits, symbols)
    ensures Seeded(cats.upper, upper) == 1 ==> seeds[0] in upper
    ensures Seeded(cats.lower, lower) == 1 ==> seeds[Seeded(cats.upper, upper)] in lower
    ensures Seeded(cats.numbers, digits) == 1 ==>
      seeds[Seeded(cats.upper, upper) + Seeded(cats.lower, lower)] in digits
    ensures Seeded(cats.symbols, symbols) == 1 ==>
      seeds[Seeded(cats.upper, upper) + Seeded(cats.lower, lower) + Seeded(cats.numbers, digits)] in symbols
  {
    seeds := [];
    if cats.upper && upper != [] {
      var j :| 0 <= j < |upper|;
      seeds := seeds + [upper[j]];
    }
    ghost var s1 := seeds;
    if cats.lower && lower != [] {
      var j :| 0 <= j < |lower|;
      seeds := seeds + [lower[j]];
    }
    ghost var s2 := seeds;
    assert s2[..|s1|] == s1;
    if cats.numbers && digits != [] {
      var j :| 0 <= j < |digits|;
      seeds := seeds + [digits[j]];
    }
    ghost var s3 := seeds;
    assert s3[..|s2|] == s2;
    if cats.symbols && symbols != [] {
      var j :| 0 <= j < |symbols|;
      seeds := seeds + [symbols[j]];
    }
    assert seeds[..|s3|] == s3;
  }

  /**
   * `p` comes from `b` by the repair step: it has the same length, and a
   * position where they differ is never the first one and holds in `b` the
   * character that `p` keeps just before it.
   */
  predicate RepairedFrom(p: string, b: string) {
    |p| == |b| && forall k :: 0 <= k < |b| && p[k] != b[k] ==> 1 <= k && b[k] == p[k - 1]
  }

  /**
   * The repair loop of `generate_secure_password`: left to right, a character
   * equal to its left neighbour is replaced by an arbitrary pool character
   * different from it. The choice raises when the pool offers no other
   * character, which happens exactly when the pool is one character repeated
   * and the buffer has a pair of neighbours at all.
   */
  method RepairRepeats(buffer: string, pool: string) returns (r: Result<string>)
    requires forall k :: 0 <= k < |buffer| ==> buffer[k] in pool
    ensures r.Raised? <==> AllSame(pool) && |buffer| >= 2
    ensures r.Raised? ==> r.message == EmptyChoiceMessage
    ensures r.Ok? ==>
      |r.value| == |buffer| && !HasAdjacentRepeat(r.value) &&
      forall k :: 0 <= k < |r.value| ==> r.value[k] in pool
    ensures r.Ok? ==> RepairedFrom(r.value, buffer)
  {
    var password := buffer;
    var i := 1;
    while i < |password|
      invariant 1 <= i <= Max(|password|, 1)
      invariant |password| == |buffer|
      invariant forall k :: 0 <= k < |password| ==> password[k] in pool
      invariant forall k :: 1 <= k < i ==> password[k] != password[k - 1]
      invariant AllSame(pool) && |buffer| >= 2 ==> i == 1
      invariant forall k :: i <= k < |password| ==> password[k] == buffer[k]
      invariant forall k :: 0 <= k < i && k < |password| && password[k] != buffer[k] ==> 1 <= k && buffer[k] == password[k - 1]
    {
      if password[i] == password[i - 1] {
        var others := Without(pool, {password[i]});
        OthersEmpty(pool, password[i]);
        if others == [] {
          return Raised(EmptyChoiceMessage);
        }
        var j :| 0 <= j < |others|;
        password := password[..i] + [others[j]] + password[i + 1..];
      } else {
        assert !AllSame(pool) by {
          assert password[i] in pool && password[i - 1] in pool;
        }
      }
      i := i + 1;
    }
    r := Ok(password);
  }

  /** The buffer holds a character of every enabled, non-empty alphabet. */
  predicate CoversEnabled(s: string, cats: Categories, upper: string, lower: string, digits: string, symbols: string) {
    && (cats.upper && upper != [] ==> Covers(s, upper))
    && (cats.lower && lower != [] ==> Covers(s, lower))
    && (cats.numbers && digits != [] ==> Covers(s, digits))
    && (cats.symbols && symbols != [] ==> Covers(s, symbols))
  }

  /**
   * The middle of `generate_secure_password`: append arbitrary pool characters
   * while the buffer is shorter than `length`, then `random.shuffle`, modelled
   * as an arbitrary reordering. The seeds are all still in the buffer.
   */
  method FillAndShuffle(seeds: string, pool: string, length: nat) returns (buffer: string)
    requires pool != []
    requires forall k :: 0 <= k < |seeds| ==> seeds[k] in pool
    ensures |buffer| == Max(length, |seeds|)
    ensures forall k :: 0 <= k < |buffer| ==> buffer[k] in pool
    ensures multiset(seeds) <= multiset(buffer)
  {
    var password := seeds;
    while |password| < length
      invariant |seeds| <= |password| <= Max(length, |seeds|)
      invariant multiset(seeds) <= multiset(password)
      invariant forall k :: 0 <= k < |password| ==> password[k] in pool
      decreases length - |password|
    {
      var j :| 0 <= j < |pool|;
      password := password + [pool[j]];
    }
    buffer :| multiset(buffer) == multiset(password);
    assert |buffer| == |multiset(buffer)| == |password|;
    PermutationWithin(password, buffer, pool);
  }

  /**
   * The form's exclusion step: when the exclusion text is non-empty, each
   * alphabet keeps only the characters not in it; otherwise the alphabets
   * stay whole. Either way each result is the alphabet without the excluded
   * characters.
   */
  method FilterAlphabets(exclude: string) returns (upper: string, lower: string, digits: string, symbols: string)
    ensures upper == Without(Upper, CharsOf(exclude)) && lower == Without(Lower, CharsOf(exclude))
    ensures digits == Without(Digits, CharsOf(exclude)) && symbols == Without(Symbols, CharsOf(exclude))
  {
    upper, lower, digits, symbols := Upper, Lower, Digits, Symbols;
    if exclude != [] {
      var excluded := CharsOf(exclude);
      upper := Without(Upper, excluded);
      lower := Without(Lower, excluded);
      digits := Without(Digits, excluded);
      symbols := Without(Symbols, excluded);
    } else {
      assert CharsOf(exclude) == {};
      WithoutNothing(Upper);
      WithoutNothing(Lower);
      WithoutNothing(Digits);
      WithoutNothing(Symbols);
    }
  }

  /**
   * `generate_secure_password`: seeding, filling from the pool up to `length`,
   * shuffling, repairing equal neighbours, and cutting to `length`. The
   * shuffled buffer is returned as a ghost result so that what seeding
   * guarantees can be stated. The repair only overwrites a character equal to
   * its left neighbour, which stays, so no character class is lost; only the
   * cut can drop seeds, when there are more seeds than `length`.
   */
  method GenerateSecurePassword(length: nat, upper: string, lower: string, digits: string, symbols: string,
                                cats: Categories)
    returns (r: Result<string>, ghost shuffled: string)
    requires Join(cats, upper, lower, digits, symbols) != []
    ensures |shuffled| == Max(length, SeedCount(cats, upper, lower, digits, symbols))
    ensures forall k :: 0 <= k < |shuffled| ==> shuffled[k] in Join(cats, upper, lower, digits, symbols)
    ensures CoversEnabled(shuffled, cats, upper, lower, digits, symbols)
    ensures r.Raised? <==> AllSame(Join(cats, upper, lower, digits, symbols)) && |shuffled| >= 2
    ensures r.Raised? ==> r.message == EmptyChoiceMessage
    ensures r.Ok? ==>
      |r.value| == length && !HasAdjacentRepeat(r.value) &&
      forall k :: 0 <= k < |r.value| ==> r.value[k] in Join(cats, upper, lower, digits, symbols)
    ensures r.Ok? ==> RepairedFrom(r.value, shuffled[..length])
    ensures r.Ok? && length >= SeedCount(cats, upper, lower, digits, symbols) ==>
      CoversEnabled(r.value, cats, upper, lower, digits, symbols)
  {
    var seeds := SeedCategories(upper, lower, digits, symbols, cats);
    SeedsCoverEnabled(seeds, cats, upper, lower, digits, symbols);

    var pool := BuildPool(cats, upper, lower, digits, symbols);
    var buffer := FillAndShuffle(seeds, pool, length);
    shuffled := buffer;
    CoversEnabledContained(seeds, buffer, cats, upper, lower, digits, symbols);

    var repaired := RepairRepeats(buffer, pool);
    if repaired.Raised? {
      r := Raised(repaired.message);
    } else {
      var p := repaired.value;
      // password[:length]
      r := Ok(if length <= |p| then p[..length] else p);
      PrefixNoRepeat(p, length);
      PrefixRepaired(p, buffer, length);
      if length >= |seeds| {
        assert buffer[..length] == buffer;
        CoversEnabledRepaired(buffer, r.value, cats, upper, lower, digits, symbols);
      }
    }
  }

  /** Cutting a repaired string and its source at the same place keeps the relation. */
  lemma PrefixRepaired(p: string, b: string, n: nat)
    requires RepairedFrom(p, b) && n <= |b|
    ensures RepairedFrom(p[..n], b[..n])
  {
    forall k | 0 <= k < n && p[..n][k] != b[..n][k]
      ensures 1 <= k && b[..n][k] == p[..n][k - 1]
    {
      assert p[..n][k] == p[k] && b[..n][k] == b[k];
    }
  }

  /** The repair keeps every alphabet the buffer covers: an overwritten character survives at its left. */
  lemma CoversRepaired(b: string, p: string, alphabet: string)
    requires RepairedFrom(p, b) && Covers(b, alphabet)
    ensures Covers(p, alphabet)
  {
    var k :| 0 <= k < |b| && b[k] in alphabet;
    if p[k] != b[k] {
      assert p[k - 1] in alphabet;
    }
  }

  /** The repair keeps the coverage of every enabled, non-empty alphabet. */
  lemma CoversEnabledRepaired(b: string, p: string, cats: Categories, upper: string, lower: string, digits: string,
                              symbols: string)
    requires RepairedFrom(p, b)
    requires CoversEnabled(b, cats, upper, lower, digits, symbols)
    ensures CoversEnabled(p, cats, upper, lower, digits, symbols)
  {
    if cats.upper && upper != [] { CoversRepaired(b, p, upper); }
    if cats.lower && lower != [] { CoversRepaired(b, p, lower); }
    if cats.numbers && digits != [] { CoversRepaired(b, p, digits); }
    if cats.symbols && symbols != [] { CoversRepaired(b, p, symbols); }
  }

  /** A prefix of a string without equal neighbours has none either. */
  lemma PrefixNoRepeat(p: string, n: nat)
    requires !HasAdjacentRepeat(p)
    requires n <= |p|
    ensures !HasAdjacentRepeat(p[..n])
  {
    forall i | 0 <= i < n - 1 ensures p[..n][i] != p[..n][i + 1] {
      assert p[..n][i] == p[i] && p[..n][i + 1] == p[i + 1];
    }
  }

  /** The seeds laid out by `SeedCategories` cover every enabled, non-empty alphabet. */
  lemma SeedsCoverEnabled(seeds: string, cats: Categories, upper: string, lower: string, digits: string, symbols: string)
    requires |seeds| == SeedCount(cats, upper, lower, digits, symbols)
    requires Seeded(cats.upper, upper) == 1 ==> seeds[0] in upper
    requires Seeded(cats.lower, lower) == 1 ==> seeds[Seeded(cats.upper, upper)] in lower
    requires Seeded(cats.numbers, digits) == 1 ==>
      seeds[Seeded(cats.upper, upper) + Seeded(cats.lower, lower)] in digits
    requires Seeded(cats.symbols, symbols) == 1 ==>
      seeds[Seeded(cats.upper, upper) + Seeded(cats.lower, lower) + Seeded(cats.numbers, digits)] in symbols
    ensures CoversEnabled(seeds, cats, upper, lower, digits, symbols)
  {
    var a := Seeded(cats.upper, upper);
    var b := a + Seeded(cats.lower, lower);
    var c := b + Seeded(cats.numbers, digits);
    if cats.upper && upper != [] { assert seeds[0] in upper; }
    if cats.lower && lower != [] { assert seeds[a] in lower; }
    if cats.numbers && digits != [] { assert seeds[b] in digits; }
    if cats.symbols && symbols != [] { assert seeds[c] in symbols; }
  }

  /** Whatever contains the characters of a buffer covers what the buffer covers. */
  lemma CoversEnabledContained(s: string, t: string, cats: Categories, upper: string, lower: string, digits: string,
                               symbols: string)
    requires multiset(s) <= multiset(t)
    requires CoversEnabled(s, cats, upper, lower, digits, symbols)
    ensures CoversEnabled(t, cats, upper, lower, digits, symbols)
  {
    if cats.upper && upper != [] { CoversContained(s, t, upper); }
    if cats.lower && lower != [] { CoversContained(s, t, lower); }
    if cats.numbers && digits != [] { CoversContained(s, t, digits); }
    if cats.symbols && symbols != [] { CoversContained(s, t, symbols); }
  }

  /**
   * The score of `analyze_password_strength`: the 7-point criteria plus one
   * point when no two neighbouring characters are equal.
   */
  function Score8(p: string): (r: nat)
    ensures r <= MaxScore
    ensures r == Score7(p) + 1 <==> !HasAdjacentRepeat(p)
    ensures r == Score7(p) <==> HasAdjacentRepeat(p)
  {
    LengthPoints(|p|) + VarietyPoints(p) + (if HasAdjacentRepeat(p) then 0 else 1)
  }

  /** `(score / max_score) * 100`; exact, since a multiple of 1/8 needs no rounding. */
  function StrengthPercent(score: int): real {
    (score as real / MaxScore as real) * 100.0
  }

  /** The label of `analyze_password_strength`: below 40% weak, below 70% fair, below 90% good, else strong. */
  function Label8(score: int): (r: Rating)
    ensures r != Unrated
  {
    var percent := StrengthPercent(score);
    if percent < 40.0 then Weak
    else if percent < 70.0 then Fair
    else if percent < 90.0 then Good
    else Strong
  }

  /** On the scores that occur, the percentage thresholds are whole-point bands: 0-3, 4-5, 6-7 and 8. */
  lemma Label8Bands(score: int)
    requires 0 <= score <= MaxScore
    ensures Label8(score) == (if score <= 3 then Weak else if score <= 5 then Fair else if score <= 7 then Good else Strong)
  {
    assert StrengthPercent(score) == score as real * 12.5;
  }

  /** A higher score never gets a lower label on the 8-point scale. */
  lemma Label8Monotone(s: int, t: int)
    requires s <= t
    ensures Rank(Label8(s)) <= Rank(Label8(t))
  {
    assert StrengthPercent(s) <= StrengthPercent(t);
  }

  /** A password of the security rules always earns the point for having no equal neighbours. */
  lemma SecureOutputEarnsRepeatPoint(password: string)
    requires !HasAdjacentRepeat(password)
    ensures Score8(password) == Score7(password) + 1
    ensures |password| >= 16 && VarietyPoints(password) == 4 ==> Label8(Score8(password)) == Strong
  {
    Label8Bands(Score8(password));
  }

  /** A string holding two different characters is not one character repeated. */
  lemma NotAllSame(s: string, a: char, b: char)
    requires a in s && b in s && a != b
    ensures !AllSame(s)
  {
    var i :| 0 <= i < |s| && s[i] == a;
    var j :| 0 <= j < |s| && s[j] == b;
  }

  /** How the form's generation ends: a password, a refusal by validation, or a caught exception. */
  datatype Attempt = Produced(password: string) | Refused(message: string) | Caught(message: string)

  /**
   * The alphabet as the form filters it: `Without` applied to the set of
   * characters of the exclusion text, named for use on each alphabet.
   */
  function Filtered(alphabet: string, exclude: string): (r: string)
    ensures forall c :: c in r <==> c in alphabet && c !in exclude
  {
    Without(alphabet, CharsOf(exclude))
  }

  /** `s` holds a character of every enabled alphabet that the exclusions leave non-empty. */
  predicate CoversSelection(s: string, cats: Categories, exclude: string) {
    CoversEnabled(s, cats, Filtered(Upper, exclude), Filtered(Lower, exclude), Filtered(Digits, exclude),
                  Filtered(Symbols, exclude))
  }

  /**
   * What the form promises of a password it shows: `length` pool characters
   * and, under the security rules, no equal neighbours and a character of
   * every enabled alphabet the exclusions leave non-empty.
   */
  predicate Delivered(p: string, length: int, cats: Categories, exclude: string, enforceRules: bool) {
    && |p| == length
    && (forall k :: 0 <= k < |p| ==> p[k] in Pool(cats, exclude))
    && (enforceRules ==> !HasAdjacentRepeat(p) && CoversSelection(p, cats, exclude))
  }

  /**
   * The body of `generate_password` up to the display: validate the
   * selection, filter each alphabet, build the pool, and draw plainly or
   * under the security rules. A validation failure is a refusal carrying the
   * text of its dialog; the exception of the security rules is caught as
   * "An error occurred: ...". There is no length check: the form's slider
   * only offers 4 to 50.
   */
  method ProducePassword(length: nat, cats: Categories, exclude: string, enforceRules: bool) returns (a: Attempt)
    ensures !cats.Any() ==> a == Refused(NoCategoryMessage)
    ensures cats.Any() && Pool(cats, exclude) == [] ==> a == Refused(NoCharsMessage)
    ensures cats.Any() && Pool(cats, exclude) != [] ==>
      !a.Refused? &&
      (a.Caught? ==> enforceRules && AllSame(Pool(cats, exclude)) && a.message == ErrorOccurredPrefix + EmptyChoiceMessage) &&
      (length >= 2 && enforceRules && AllSame(Pool(cats, exclude)) ==> a.Caught?)
    ensures a.Produced? ==>
      cats.Any() && |a.password| == length &&
      (forall k :: 0 <= k < |a.password| ==> a.password[k] in Pool(cats, exclude)) &&
      (enforceRules ==> !HasAdjacentRepeat(a.password))
    ensures a.Produced? && enforceRules && length >= MinLength ==> CoversSelection(a.password, cats, exclude)
    ensures a.Produced? && length >= MinLength ==> Delivered(a.password, length, cats, exclude, enforceRules)
  {
    if !cats.Any() {
      return Refused(NoCategoryMessage);
    }

    var upperChars, lowerChars, numberChars, symbolChars := FilterAlphabets(exclude);
    var pool := BuildPool(cats, upperChars, lowerChars, numberChars, symbolChars);
    JoinWithout(cats, Upper, Lower, Digits, Symbols, CharsOf(exclude));
    assert pool == Pool(cats, exclude);

    if pool == [] {
      return Refused(NoCharsMessage);
    }

    if enforceRules {
      var secure, shuffled := GenerateSecurePassword(length, upperChars, lowerChars, numberChars, symbolChars, cats);
      if secure.Raised? {
        return Caught(ErrorOccurredPrefix + secure.message);
      }
      a := Produced(secure.value);
    } else {
      var drawn := Draw(pool, length);
      a := Produced(drawn);
    }
  }

  /** A password covering the selection has the class of every enabled alphabet left non-empty. */
  lemma SelectionClasses(s: string, cats: Categories, exclude: string)
    requires CoversSelection(s, cats, exclude)
    ensures cats.upper && Filtered(Upper, exclude) != [] ==> HasUpper(s)
    ensures cats.lower && Filtered(Lower, exclude) != [] ==> HasLower(s)
    ensures cats.numbers && Filtered(Digits, exclude) != [] ==> HasDigit(s)
    ensures cats.symbols && Filtered(Symbols, exclude) != [] ==> HasOther(s)
  {
    if cats.upper && Filtered(Upper, exclude) != [] {
      var k :| 0 <= k < |s| && s[k] in Filtered(Upper, exclude);
      AlphabetClasses(s[k]);
    }
    if cats.lower && Filtered(Lower, exclude) != [] {
      var k :| 0 <= k < |s| && s[k] in Filtered(Lower, exclude);
      AlphabetClasses(s[k]);
    }
    if cats.numbers && Filtered(Digits, exclude) != [] {
      var k :| 0 <= k < |s| && s[k] in Filtered(Digits, exclude);
      AlphabetClasses(s[k]);
    }
    if cats.symbols && Filtered(Symbols, exclude) != [] {
      var k :| 0 <= k < |s| && s[k] in Filtered(Symbols, exclude);
      AlphabetClasses(s[k]);
    }
  }

  /**
   * A selection with both letter cases and an exclusion that spares 'A' and
   * 'a' has a pool that is neither empty nor one character repeated, so the
   * security rules can always repair it.
   */
  lemma MixedPoolUsable(cats: Categories, exclude: string)
    requires cats.upper && cats.lower && 'A' !in exclude && 'a' !in exclude
    ensures Pool(cats, exclude) != [] && !AllSame(Pool(cats, exclude))
  {
    assert 'A' in Upper && 'a' in Lower;
    NotAllSame(Pool(cats, exclude), 'A', 'a');
  }

  /**
   * The desktop form's state: the settings bound to its widgets, the password
   * shown, and the score and label of the strength display.
   */
  class Form {
    var length: int
    var categories: Categories
    var exclude: string
    var enforceRules: bool
    var password: string
    var score: int
    var rating: Rating

    /** The length slider only offers 4 to 50. */
    ghost predicate Valid()
      reads this
    {
      MinLength <= length <= MaxLength
    }

    /**
     * The form's initial settings (length 12, every category, no exclusions,
     * security rules on), followed by the first `generate_password` at the end
     * of the form's setup.
     */
    constructor ()
      ensures Valid()
      ensures length == 12 && categories == Categories(true, true, true, true) && exclude == "" && enforceRules
      ensures Delivered(password, 12, categories, exclude, true)
      ensures HasUpper(password) && HasLower(password) && HasDigit(password) && HasOther(password)
      ensures score == Score8(password) && rating == Label8(score)
      ensures score == 7 && rating == Good
    {
      length := 12;
      categories := Categories(true, true, true, true);
      exclude := "";
      enforceRules := true;
      password := "";
      score := 0;
      rating := Unrated;
      new;
      var dialog := FirstGeneration();
      Label8Bands(score);
    }

    /**
     * The first `generate_password`: with every category enabled and 'A',
     * 'a', '0' and '!' not excluded it shows no dialog, so the form opens with
     * a password that meets the security rules and holds all four classes.
     */
    method FirstGeneration() returns (dialog: Dialog)
      requires Valid() && enforceRules
      requires categories.upper && categories.lower && categories.numbers && categories.symbols
      requires 'A' !in exclude && 'a' !in exclude && '0' !in exclude && '!' !in exclude
      modifies this`password, this`score, this`rating
      ensures dialog == NoDialog
      ensures Delivered(password, length, categories, exclude, enforceRules)
      ensures HasUpper(password) && HasLower(password) && HasDigit(password) && HasOther(password)
      ensures score == Score8(password) && rating == Label8(score)
    {
      MixedPoolUsable(categories, exclude);
      dialog := GeneratePassword();
      assert 'A' in Filtered(Upper, exclude) && 'a' in Filtered(Lower, exclude);
      assert '0' in Filtered(Digits, exclude) && '!' in Filtered(Symbols, exclude);
      SelectionClasses(password, categories, exclude);
    }

    /** `analyze_password_strength`: the score and label shown for a password. */
    method AnalyzePasswordStrength(p: string)
      modifies this`score, this`rating
      ensures score == Score8(p) && rating == Label8(score)
      ensures 0 <= score <= MaxScore
    {
      score := Score8(p);
      rating := Label8(score);
    }

    /**
     * `generate_password` on the form: produce a password from the current
     * settings, then either show it and its strength, or show the error
     * dialog and leave the shown password and strength as they were.
     */
    method GeneratePassword() returns (dialog: Dialog)
      requires Valid()
      modifies this`password, this`score, this`rating
      ensures !categories.Any() ==> dialog == ErrorDialog(NoCategoryMessage)
      ensures categories.Any() && Pool(categories, exclude) == [] ==> dialog == ErrorDialog(NoCharsMessage)
      ensures categories.Any() && Pool(categories, exclude) != [] ==>
        (dialog == ErrorDialog(ErrorOccurredPrefix + EmptyChoiceMessage) <==>
         enforceRules && AllSame(Pool(categories, exclude)))
      ensures categories.Any() && Pool(categories, exclude) != [] && !(enforceRules && AllSame(Pool(categories, exclude))) ==>
        dialog == NoDialog
      ensures dialog != NoDialog ==> password == old(password) && score == old(score) && rating == old(rating)
      ensures dialog == NoDialog ==>
        Delivered(password, length, categories, exclude, enforceRules) &&
        score == Score8(password) && rating == Label8(score)
    {
      ghost var pool := Pool(categories, exclude);
      var a := ProducePassword(length, categories, exclude, enforceRules);
      dialog := Show(a);
      assert pool == Pool(categories, exclude);
    }

    /**
     * The end of `generate_password`: a produced password is set in the
     * display and analysed; anything else is shown as an error dialog and
     * changes nothing.
     */
    method Show(a: Attempt) returns (dialog: Dialog)
      modifies this`password, this`score, this`rating
      ensures a.Produced? ==> dialog == NoDialog && password == a.password
      ensures a.Produced? ==> score == Score8(password) && rating == Label8(score)
      ensures !a.Produced? ==> dialog == ErrorDialog(a.message)
      ensures !a.Produced? ==> password == old(password) && score == old(score) && rating == old(rating)
    {
      if !a.Produced? {
        return ErrorDialog(a.message);
      }
      password := a.password;
      AnalyzePasswordStrength(a.password);
      dialog := NoDialog;
    }
  }
}
