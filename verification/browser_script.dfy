/**
 * The browser script's `PasswordGenerator`: `generatePassword` builds the
 * charset from the checked boxes, filters out the excluded characters, draws
 * `length` characters and rates them; `calculatePasswordStrength` is the
 * 7-point scorer. The two page elements it writes, the output box and the
 * strength indicator, are the method's two results.
 */
module BrowserScript {
  import opened CharPool
  import opened Strength
  import WebApp

  const NoTypeMessage: string := "Select at least one character type"
  /** What JavaScript appends for `charset[i]` when `charset` is empty: `undefined` turned into text. */
  const UndefinedText: string := "undefined"
  /** The message of the corrected version when exclusions leave no character to draw. */
  const NoCharsMessage: string := "No characters available after exclusions"

  /** `n` copies of `s`, appended one after the other (none when `n` is not positive). */
  function Repeat(s: string, n: int): (r: string)
    ensures n >= 0 ==> |r| == n * |s|
    ensures n <= 0 ==> r == ""
  {
    if n <= 0 then "" else Repeat(s, n - 1) + s
  }

  /** The number of iterations of `for (let i = 0; i < length; i++)`. */
  function Iterations(length: int): nat {
    if length < 0 then 0 else length
  }

  /** `calculatePasswordStrength`: the 7-point score mapped to weak / fair / good / strong. */
  function CalculatePasswordStrength(password: string): (r: Rating)
    ensures r != Unrated
    ensures r == Strong <==>
      |password| >= 16 && HasLower(password) && HasUpper(password) && HasDigit(password) && HasOther(password)
    ensures |password| < 8 ==> r == Weak || r == Fair
  {
    Label7(Score7(password))
  }

  /**
   * `generatePassword` as written. With no box checked it shows the message and
   * rates 'none'. Otherwise it never checks the filtered charset: when the
   * exclusions empty it, every draw reads `charset[0]`, which is `undefined`,
   * and the output is that word repeated.
   */
  method GeneratePassword(length: int, cats: Categories, exclude: string) returns (output: string, level: Rating)
    ensures !cats.Any() ==> output == NoTypeMessage && level == Unrated
    ensures cats.Any() ==> level == CalculatePasswordStrength(output)
    ensures cats.Any() && Pool(cats, exclude) != [] ==>
      |output| == Iterations(length) &&
      forall k :: 0 <= k < |output| ==> output[k] in Pool(cats, exclude) && output[k] !in exclude
    ensures cats.Any() && Pool(cats, exclude) == [] ==> output == Repeat(UndefinedText, length)
  {
    if !cats.Any() {
      return NoTypeMessage, Unrated;
    }
    var charset := BuildPool(cats, Upper, Lower, Digits, Symbols);
    if exclude != [] {
      charset := Without(charset, CharsOf(exclude));
    } else {
      WithoutNothing(charset);
      assert CharsOf(exclude) == {};
    }
    assert charset == Pool(cats, exclude);

    var password := "";
    var i := 0;
    while i < length
      invariant 0 <= i <= Iterations(length)
      invariant charset != [] ==> |password| == i
      invariant forall k :: 0 <= k < |password| && charset != [] ==> password[k] in charset
      invariant charset == [] ==> password == Repeat(UndefinedText, i)
    {
      if charset == [] {
        password := password + UndefinedText;
      } else {
        var j :| 0 <= j < |charset|;
        password := password + [charset[j]];
      }
      i := i + 1;
    }
    output := password;
    level := CalculatePasswordStrength(password);
  }

  /**
   * Unchecking all but "uppercase" and excluding the whole uppercase alphabet
   * leaves an empty charset, so the output is "undefined" repeated; for any
   * length from 2 on, that filler is even rated 'fair'.
   */
  lemma UndefinedFillerRatedFair(length: int)
    requires length >= 2
    ensures Pool(Categories(true, false, false, false), Upper) == []
    ensures CalculatePasswordStrength(Repeat(UndefinedText, length)) == Fair
  {
    UpperExcludedEmptiesPool();
    var p := Repeat(UndefinedText, length);
    assert forall j :: 0 <= j < |UndefinedText| ==> IsLower(UndefinedText[j]);
    forall k | 0 <= k < |p| ensures IsLower(p[k]) {
      RepeatLower(UndefinedText, length, k);
    }
    assert HasLower(p) by { assert IsLower(p[0]); }
  }

  /** Excluding every uppercase letter empties the pool of the uppercase-only selection. */
  lemma UpperExcludedEmptiesPool()
    ensures Pool(Categories(true, false, false, false), Upper) == []
  {
    var cats := Categories(true, false, false, false);
    var joined := Join(cats, Upper, Lower, Digits, Symbols);
    assert forall c :: c in joined ==> c in CharsOf(Upper);
    WithoutEverything(joined, CharsOf(Upper));
  }

  /** Every character of a repetition of an all-lowercase word is lowercase. */
  lemma {:induction false} RepeatLower(s: string, n: int, k: int)
    requires forall j :: 0 <= j < |s| ==> IsLower(s[j])
    requires 0 <= k < |Repeat(s, n)|
    ensures IsLower(Repeat(s, n)[k])
  {
    if n > 0 {
      var prev := Repeat(s, n - 1);
      if k < |prev| {
        RepeatLower(s, n - 1, k);
      } else {
        assert Repeat(s, n)[k] == s[k - |prev|];
      }
    }
  }

  /**
   * The evidently intended `generatePassword`: an empty charset after
   * exclusions is refused before any draw, as the web server does, so the
   * output is always either a message rated 'none' or a password drawn from
   * the charset.
   */
  method GeneratePasswordGuarded(length: int, cats: Categories, exclude: string) returns (output: string, level: Rating)
    ensures !cats.Any() ==> output == NoTypeMessage && level == Unrated
    ensures cats.Any() && Pool(cats, exclude) == [] ==> output == NoCharsMessage && level == Unrated
    ensures cats.Any() && Pool(cats, exclude) != [] ==>
      |output| == Iterations(length) && level == CalculatePasswordStrength(output) &&
      forall k :: 0 <= k < |output| ==> output[k] in Pool(cats, exclude)
  {
    if !cats.Any() {
      return NoTypeMessage, Unrated;
    }
    var charset := Pool(cats, exclude);
    if charset == [] {
      return NoCharsMessage, Unrated;
    }
    output := Draw(charset, Iterations(length));
    level := CalculatePasswordStrength(output);
  }

  /**
   * On any password that does not begin with "Error:" the script's level is
   * the web server's label; on one that does, the server says "None" where
   * the script gives a real level.
   */
  lemma LevelMatchesWebLabel(password: string)
    ensures !(WebApp.ErrorPrefix <= password) ==> CalculatePasswordStrength(password) == WebApp.CalculateStrength(password)
    ensures WebApp.ErrorPrefix <= password ==> CalculatePasswordStrength(password) != WebApp.CalculateStrength(password)
  {
  }
}
