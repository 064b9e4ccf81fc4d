/**
 * The web server's `PasswordGenerator`: building the charset, rejecting bad
 * requests with an "Error:" message in place of the password, drawing the
 * password, and rating it on the 7-point scale.
 */
module WebApp {
  import opened CharPool
  import opened Strength

  const ErrorPrefix: string := "Error:"
  const NoTypeError: string := ErrorPrefix + " At least one character type must be selected"
  const LengthError: string := ErrorPrefix + " Password length must be at least 4 characters"
  const MinLength: int := 4

  /**
   * `generate_password`: the charset is grown by concatenation, each excluded
   * character is then stripped with `str.replace` one after the other, and
   * `length` characters are drawn from what is left. An empty charset is
   * reported before a short length.
   */
  method GeneratePassword(length: int, cats: Categories, exclude: string) returns (password: string)
    ensures Pool(cats, exclude) == [] ==> password == NoTypeError
    ensures Pool(cats, exclude) != [] && length < MinLength ==> password == LengthError
    ensures Pool(cats, exclude) != [] && length >= MinLength ==>
      |password| == length &&
      forall k :: 0 <= k < |password| ==> password[k] in Pool(cats, exclude) && password[k] !in exclude
  {
    var charset := BuildPool(cats, Upper, Lower, Digits, Symbols);
    if exclude != [] {
      charset := RemoveExcluded(charset, exclude);
    } else {
      WithoutNothing(charset);
      assert CharsOf(exclude) == {};
    }
    assert charset == Pool(cats, exclude);

    if charset == [] {
      return NoTypeError;
    }
    if length < MinLength {
      return LengthError;
    }
    password := Draw(charset, length);
  }

  /**
   * The exclusion loop of `generate_password`: every character of `exclude`,
   * in the order written, is stripped from the charset with `replace`. The
   * result is the charset without all of them.
   */
  method RemoveExcluded(charset: string, exclude: string) returns (r: string)
    ensures r == Without(charset, CharsOf(exclude))
  {
    r := charset;
    var i := 0;
    assert CharsOf(exclude[..0]) == {};
    WithoutNothing(charset);
    while i < |exclude|
      invariant 0 <= i <= |exclude|
      invariant r == Without(charset, CharsOf(exclude[..i]))
    {
      ExcludeStep(charset, exclude, i);
      r := Without(r, {exclude[i]});
      i := i + 1;
    }
    assert exclude[..|exclude|] == exclude;
  }

  /** `calculate_strength`: "None" for an "Error:" message, otherwise the 7-point rating. */
  function CalculateStrength(password: string): (r: Rating)
    ensures r == Unrated <==> ErrorPrefix <= password
    ensures r == Strong <==>
      !(ErrorPrefix <= password) && |password| >= 16 &&
      HasLower(password) && HasUpper(password) && HasDigit(password) && HasOther(password)
    ensures !(ErrorPrefix <= password) && |password| < 8 ==> r == Weak || r == Fair
  {
    if ErrorPrefix <= password then Unrated
    else Label7(Score7(password))
  }

  /** Both error messages are rated "None". */
  lemma ErrorsUnrated()
    ensures CalculateStrength(NoTypeError) == Unrated
    ensures CalculateStrength(LengthError) == Unrated
  {
  }

  /**
   * The rating of a password never drops when characters are appended, as
   * long as the longer string does not begin with "Error:".
   */
  lemma StrengthExtend(password: string, more: string)
    requires !(ErrorPrefix <= password + more)
    ensures Rank(CalculateStrength(password)) <= Rank(CalculateStrength(password + more))
  {
    Score7Extend(password, more);
    Label7Monotone(Score7(password), Score7(password + more));
  }

  /** Appending can still lower the rating, by completing the "Error:" prefix. */
  lemma StrengthDropsOnPrefix()
    ensures CalculateStrength("Error") == Weak
    ensures CalculateStrength("Error" + ":") == Unrated
  {
    assert IsUpper("Error"[0]) && IsLower("Error"[1]);
  }

  /**
   * A password of the default request (length 12, every category, nothing
   * excluded) that begins with "Error:": every character is in the full
   * charset, yet it is rated "None".
   */
  lemma ErrorPrefixedPasswordUnrated()
    ensures var p := "Error:Ab1xyz";
      |p| == 12 &&
      (forall k :: 0 <= k < |p| ==> p[k] in Pool(Categories(true, true, true, true), "")) &&
      CalculateStrength(p) == Unrated
  {
    var p := "Error:Ab1xyz";
    assert p[..|ErrorPrefix|] == ErrorPrefix;
    forall k | 0 <= k < |p|
      ensures p[k] in Pool(Categories(true, true, true, true), "")
    {
      assert p[k] in Upper || p[k] in Lower || p[k] in Digits || p[k] in Symbols;
    }
  }

  /** What `generate_password` produces, told apart by kind instead of by a text prefix. */
  datatype Outcome = Generated(password: string) | Refused(message: string)

  /** The rating as evidently intended: "None" exactly for a refusal, the 7-point rating for any password. */
  function RateOutcome(o: Outcome): (r: Rating)
    ensures r == Unrated <==> o.Refused?
    ensures o.Generated? ==> r == Label7(Score7(o.password))
  {
    match o
    case Refused(_) => Unrated
    case Generated(p) => Label7(Score7(p))
  }

  /** The intended rating agrees with `calculate_strength` everywhere except on passwords beginning "Error:". */
  lemma RateOutcomeAgrees(p: string)
    ensures !(ErrorPrefix <= p) ==> RateOutcome(Generated(p)) == CalculateStrength(p)
    ensures ErrorPrefix <= p ==> RateOutcome(Generated(p)) != CalculateStrength(p)
    ensures RateOutcome(Refused(NoTypeError)) == CalculateStrength(NoTypeError)
    ensures RateOutcome(Refused(LengthError)) == CalculateStrength(LengthError)
  {
    ErrorsUnrated();
  }
}
