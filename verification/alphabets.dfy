/**
 * The character pool shared by the three front-ends: the four fixed
 * alphabets, removal of excluded characters, concatenation of the selected
 * alphabets in the fixed order, and drawing characters from a pool.
 */
module CharPool {

  /** Python's string.ascii_uppercase. */
  const Upper: string := "ABCDEFGHIJKLMNOPQRSTUVWXYZ"
  /** Python's string.ascii_lowercase. */
  const Lower: string := "abcdefghijklmnopqrstuvwxyz"
  /** Python's string.digits. */
  const Digits: string := "0123456789"
  /** The symbol alphabet, identical in all three front-ends. */
  const Symbols: string := "!@#$%^&*()_+-=[]{}|;:,.<>?"

  /** Which of the four categories the user enabled. */
  datatype Categories = Categories(upper: bool, lower: bool, numbers: bool, symbols: bool)
  {
    predicate Any() {
      upper || lower || numbers || symbols
    }
  }

  /** The set of characters occurring in a string (an exclusion string is used only for membership). */
  function CharsOf(s: string): (r: set<char>)
    ensures forall c :: c in r <==> c in s
  {
    set c | c in s
  }

  /**
   * `s` with every character in `ex` removed, the others kept in order.
   * This is a comprehension `c for c in s if c not in ex` and, for a one-element
   * `ex`, Python's `s.replace(c, '')`.
   */
  function Without(s: string, ex: set<char>): (r: string)
    ensures |r| <= |s|
    ensures forall c :: c in r <==> c in s && c !in ex
  {
    if s == [] then []
    else if s[0] in ex then Without(s[1..], ex)
    else [s[0]] + Without(s[1..], ex)
  }

  /** `acc` followed by `alphabet` when its category is enabled: one `pool += alphabet` step. */
  function AddIf(acc: string, enabled: bool, alphabet: string): (r: string)
    ensures forall c :: c in r <==> c in acc || (enabled && c in alphabet)
    ensures |r| == |acc| + (if enabled then |alphabet| else 0)
  {
    if enabled then acc + alphabet else acc
  }

  /** The enabled alphabets concatenated in the order upper, lower, digits, symbols. */
  function Join(cats: Categories, upper: string, lower: string, digits: string, symbols: string): (r: string)
    ensures forall c :: c in r <==>
      (cats.upper && c in upper) || (cats.lower && c in lower) ||
      (cats.numbers && c in digits) || (cats.symbols && c in symbols)
    ensures |r| == (if cats.upper then |upper| else 0) + (if cats.lower then |lower| else 0)
                 + (if cats.numbers then |digits| else 0) + (if cats.symbols then |symbols| else 0)
  {
    AddIf(AddIf(AddIf(AddIf("", cats.upper, upper), cats.lower, lower), cats.numbers, digits), cats.symbols, symbols)
  }

  /**
   * `pool += alphabet` for each enabled category, in the order upper, lower,
   * digits, symbols, starting from the empty string.
   */
  method BuildPool(cats: Categories, upper: string, lower: string, digits: string, symbols: string)
    returns (pool: string)
    ensures pool == Join(cats, upper, lower, digits, symbols)
  {
    pool := "";
    if cats.upper { pool := pool + upper; }
    if cats.lower { pool := pool + lower; }
    if cats.numbers { pool := pool + digits; }
    if cats.symbols { pool := pool + symbols; }
  }

  /**
   * The pool the web page and the browser script build: the enabled
   * alphabets concatenated in order, then every excluded character removed.
   * What it contains is stated once, by `PoolMembers`.
   */
  function Pool(cats: Categories, exclude: string): string {
    Without(Join(cats, Upper, Lower, Digits, Symbols), CharsOf(exclude))
  }

  /** A character is in the pool exactly when it is not excluded and some enabled alphabet has it. */
  lemma PoolMembers(cats: Categories, exclude: string)
    ensures forall c :: c in Pool(cats, exclude) <==>
      (c !in exclude &&
       ((cats.upper && c in Upper) || (cats.lower && c in Lower) ||
        (cats.numbers && c in Digits) || (cats.symbols && c in Symbols)))
  {
  }

  /** Excluding every character of a string leaves nothing. */
  lemma WithoutEverything(s: string, ex: set<char>)
    requires forall c :: c in s ==> c in ex
    ensures Without(s, ex) == []
  {
  }

  /** Removing nothing leaves a string as it is. */
  lemma {:induction false} WithoutNothing(s: string)
    ensures Without(s, {}) == s
  {
    if s != [] {
      WithoutNothing(s[1..]);
      assert s == [s[0]] + s[1..];
    }
  }

  /** Removal distributes over concatenation. */
  lemma {:induction false} WithoutConcat(a: string, b: string, ex: set<char>)
    ensures Without(a + b, ex) == Without(a, ex) + Without(b, ex)
  {
    if a == [] {
      assert a + b == b;
    } else {
      assert (a + b)[0] == a[0];
      assert (a + b)[1..] == a[1..] + b;
      WithoutConcat(a[1..], b, ex);
    }
  }

  /** Removing one set and then another is removing their union. */
  lemma {:induction false} WithoutTwice(s: string, a: set<char>, b: set<char>)
    ensures Without(Without(s, a), b) == Without(s, a + b)
  {
    if s != [] {
      WithoutTwice(s[1..], a, b);
      if s[0] !in a {
        assert Without(s, a) == [s[0]] + Without(s[1..], a);
        assert ([s[0]] + Without(s[1..], a))[1..] == Without(s[1..], a);
      }
    }
  }

  /**
   * Stripping the excluded characters one at a time, in the order they are
   * written: after the first `i` of them, the result is `s` without those `i`.
   */
  lemma ExcludeStep(s: string, exclude: string, i: nat)
    requires i < |exclude|
    ensures Without(Without(s, CharsOf(exclude[..i])), {exclude[i]}) == Without(s, CharsOf(exclude[..i + 1]))
  {
    assert exclude[..i + 1] == exclude[..i] + [exclude[i]];
    assert CharsOf(exclude[..i + 1]) == CharsOf(exclude[..i]) + {exclude[i]};
    WithoutTwice(s, CharsOf(exclude[..i]), {exclude[i]});
  }

  /** Excluding the same characters twice is excluding them once. */
  lemma WithoutIdempotent(s: string, ex: set<char>)
    ensures Without(Without(s, ex), ex) == Without(s, ex)
  {
    WithoutTwice(s, ex, ex);
    assert ex + ex == ex;
  }

  /**
   * The pool depends only on which characters the exclusion text contains,
   * not on their order or how often they are repeated.
   */
  lemma PoolByExcludedSet(cats: Categories, exclude: string, other: string)
    requires forall c :: c in exclude <==> c in other
    ensures Pool(cats, exclude) == Pool(cats, other)
  {
    assert CharsOf(exclude) == CharsOf(other);
  }

  /**
   * Filtering each alphabet and then concatenating the enabled ones gives the
   * same pool as concatenating the enabled alphabets and then filtering.
   */
  lemma JoinWithout(cats: Categories, upper: string, lower: string, digits: string, symbols: string, ex: set<char>)
    ensures Join(cats, Without(upper, ex), Without(lower, ex), Without(digits, ex), Without(symbols, ex))
         == Without(Join(cats, upper, lower, digits, symbols), ex)
  {
    assert Without("", ex) == "";
    var a1 := AddIf("", cats.upper, upper);
    var a2 := AddIf(a1, cats.lower, lower);
    var a3 := AddIf(a2, cats.numbers, digits);
    AddIfWithout("", cats.upper, upper, ex);
    AddIfWithout(a1, cats.lower, lower, ex);
    AddIfWithout(a2, cats.numbers, digits, ex);
    AddIfWithout(a3, cats.symbols, symbols, ex);
  }

  lemma AddIfWithout(acc: string, enabled: bool, alphabet: string, ex: set<char>)
    ensures Without(AddIf(acc, enabled, alphabet), ex) == AddIf(Without(acc, ex), enabled, Without(alphabet, ex))
  {
    if enabled {
      WithoutConcat(acc, alphabet, ex);
    }
  }

  /**
   * `''.join(random.choice(pool) for _ in range(length))`: `length` independent
   * draws from the pool, each of them an arbitrary position of the pool.
   */
  method Draw(pool: string, length: nat) returns (password: string)
    requires pool != []
    ensures |password| == length
    ensures forall k :: 0 <= k < |password| ==> password[k] in pool
  {
    password := "";
    var i := 0;
    while i < length
      invariant 0 <= i <= length
      invariant |password| == i
      invariant forall k :: 0 <= k < |password| ==> password[k] in pool
    {
      var j :| 0 <= j < |pool|;
      password := password + [pool[j]];
      i := i + 1;
    }
  }
}
