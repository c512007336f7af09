/**
 A model of the password-strength widget: the pure classifier `checkStrength`,
 the colour lookup `getStrengthColor`, and the component's `password` /
 `strength` state pair that `handleChange` keeps in step.

 Each regular-expression test of the component becomes a scan for a character
 of one class; `filter(Boolean).length` becomes the length of the sequence of
 criteria that hold.
 */
module PasswordStrength {

  // ---------------------------------------------------------------------------
  // Character classes of the four regular expressions
  // ---------------------------------------------------------------------------

  /** The bracket expression of one of the four regular expressions. */
  datatype CharClass = Digit | Upper | Lower | Special

  /** The twenty characters listed in `[!@#$%^&*(),.?":{}|<>]`. */
  const SpecialChars: set<char> :=
    {'!', '@', '#', '$', '%', '^', '&', '*', '(', ')',
     ',', '.', '?', '"', ':', '{', '}', '|', '<', '>'}

  /** Whether `c` is matched by the bracket expression `k`. Every class holds
      only ASCII characters. */
  predicate Matches(k: CharClass, c: char)
    ensures Matches(k, c) ==> (c as int) < 128
  {
    match k
    case Digit => '0' <= c <= '9'
    case Upper => 'A' <= c <= 'Z'
    case Lower => 'a' <= c <= 'z'
    case Special => c in SpecialChars
  }

  /** `/[...]/.test(s)`: a left-to-right scan for a character of class `k`.
      It is true exactly when some position of `s` holds such a character. */
  function Test(k: CharClass, s: string): (found: bool)
    ensures found <==> exists i :: 0 <= i < |s| && Matches(k, s[i])
  {
    if |s| == 0 then false
    else if Matches(k, s[0]) then true
    else
      var rest := Test(k, s[1..]);
      assert forall i :: 1 <= i < |s| ==> s[i] == s[1..][i - 1];
      rest
  }

  /** The special characters are twenty in number, and the four classes are
      pairwise disjoint: no character is in two of them. */
  lemma ClassesDisjoint(k1: CharClass, k2: CharClass, c: char)
    ensures |SpecialChars| == 20
    ensures k1 != k2 && Matches(k1, c) ==> !Matches(k2, c)
  {
  }

  /** A character found in `s` is still found once more text is appended. */
  lemma {:induction false} TestExtends(k: CharClass, s: string, t: string)
    ensures Test(k, s) ==> Test(k, s + t)
  {
    if Test(k, s) {
      var i :| 0 <= i < |s| && Matches(k, s[i]);
      assert (s + t)[i] == s[i];
    }
  }

  // ---------------------------------------------------------------------------
  // Counting the criteria met: `[...].filter(Boolean).length`
  // ---------------------------------------------------------------------------

  /** `bs.filter(Boolean)`: the `true` entries of `bs`, in order. */
  function FilterTrue(bs: seq<bool>): (kept: seq<bool>)
    ensures forall i :: 0 <= i < |kept| ==> kept[i]
    ensures |kept| <= |bs|
  {
    if |bs| == 0 then []
    else if bs[0] then [true] + FilterTrue(bs[1..])
    else FilterTrue(bs[1..])
  }

  /** Every `true` entry is kept: the length of the filtered sequence is the
      number of occurrences of `true`. */
  lemma {:induction false} FilterTrueCount(bs: seq<bool>)
    ensures |FilterTrue(bs)| == multiset(bs)[true]
  {
    if |bs| > 0 {
      assert bs == [bs[0]] + bs[1..];
      FilterTrueCount(bs[1..]);
    }
  }

  /** Filtering distributes over concatenation. */
  lemma {:induction false} FilterTrueAppend(bs: seq<bool>, cs: seq<bool>)
    ensures FilterTrue(bs + cs) == FilterTrue(bs) + FilterTrue(cs)
  {
    if |bs| > 0 {
      assert (bs + cs)[1..] == bs[1..] + cs;
      FilterTrueAppend(bs[1..], cs);
    } else {
      assert bs + cs == cs;
    }
  }

  /** Weakening no entry of a boolean sequence, position by position, never
      lowers the number of `true` entries kept. */
  lemma {:induction false} FilterTrueMonotone(bs: seq<bool>, cs: seq<bool>)
    requires |bs| == |cs|
    requires forall i :: 0 <= i < |bs| && bs[i] ==> cs[i]
    ensures |FilterTrue(bs)| <= |FilterTrue(cs)|
  {
    if |bs| > 0 {
      FilterTrueMonotone(bs[1..], cs[1..]);
    }
  }

  /** 1 when `b` holds, 0 otherwise. */
  function Indicator(b: bool): nat
  {
    if b then 1 else 0
  }

  /** The five criteria, in the order the component lists them: length at least
      8, a digit, an upper-case letter, a lower-case letter, a special
      character. */
  function Criteria(password: string): (cs: seq<bool>)
    ensures |cs| == 5
  {
    [ |password| >= 8,
      Test(Digit, password),
      Test(Upper, password),
      Test(Lower, password),
      Test(Special, password) ]
  }

  /** The number of criteria `password` meets: between 0 and 5, and the sum of
      one indicator per criterion. */
  function CriteriaMet(password: string): (n: nat)
    ensures n <= 5
    ensures n == Indicator(|password| >= 8) + Indicator(Test(Digit, password))
               + Indicator(Test(Upper, password)) + Indicator(Test(Lower, password))
               + Indicator(Test(Special, password))
  {
    var cs := Criteria(password);
    assert cs == [cs[0]] + [cs[1]] + [cs[2]] + [cs[3]] + [cs[4]];
    FilterTrueAppend([cs[0]] + [cs[1]] + [cs[2]] + [cs[3]], [cs[4]]);
    FilterTrueAppend([cs[0]] + [cs[1]] + [cs[2]], [cs[3]]);
    FilterTrueAppend([cs[0]] + [cs[1]], [cs[2]]);
    FilterTrueAppend([cs[0]], [cs[1]]);
    |FilterTrue(cs)|
  }

  /** Every criterion met by `p` is met by `p + q`. */
  lemma {:induction false} CriteriaExtend(p: string, q: string)
    ensures forall i :: 0 <= i < 5 && Criteria(p)[i] ==> Criteria(p + q)[i]
  {
    TestExtends(Digit, p, q);
    TestExtends(Upper, p, q);
    TestExtends(Lower, p, q);
    TestExtends(Special, p, q);
  }

  // ---------------------------------------------------------------------------
  // The five ratings
  // ---------------------------------------------------------------------------

  /** The five ratings, weakest first. */
  datatype Strength = VeryWeak | Weak | Moderate | Strong | VeryStrong
  {
    /** Position in the order Very Weak < Weak < Moderate < Strong < Very Strong. */
    function Rank(): (r: nat)
      ensures r <= 4
    {
      match this
      case VeryWeak => 0
      case Weak => 1
      case Moderate => 2
      case Strong => 3
      case VeryStrong => 4
    }

    /** The string the component displays for this rating. */
    function Label(): (s: string)
      ensures |s| > 0
    {
      match this
      case VeryWeak => "Very Weak"
      case Weak => "Weak"
      case Moderate => "Moderate"
      case Strong => "Strong"
      case VeryStrong => "Very Strong"
    }
  }

  /** Different ratings are displayed as different strings. */
  lemma LabelInjective(a: Strength, b: Strength)
    ensures a.Label() == b.Label() ==> a == b
  {
  }

  /** Whether `s` is one of the five rating labels. */
  predicate IsLabel(s: string)
  {
    exists r: Strength :: r.Label() == s
  }

  /** The `switch (criteriaMet)` of `checkStrength`. For a count of at most 5,
      a count of 0 or 1 is Very Weak and every further criterion raises the
      rating one step; any other count falls to the default branch. */
  function StrengthOf(count: nat): (s: Strength)
    ensures count <= 5 ==> s.Rank() == if count <= 1 then 0 else count - 1
    ensures count > 5 ==> s == VeryWeak
  {
    match count
    case 5 => VeryStrong
    case 4 => Strong
    case 3 => Moderate
    case 2 => Weak
    case _ => VeryWeak
  }

  /** More criteria met (up to the 5 that exist) never give a lower rating. */
  lemma StrengthOfMonotone(a: nat, b: nat)
    requires a <= b <= 5
    ensures StrengthOf(a).Rank() <= StrengthOf(b).Rank()
  {
  }

  /** The rating `checkStrength` chooses for `password`: Very Weak for 0 or 1
      criteria met, one step higher for each further criterion. */
  function Classify(password: string): (s: Strength)
    ensures s.Rank() == if CriteriaMet(password) <= 1 then 0 else CriteriaMet(password) - 1
  {
    StrengthOf(CriteriaMet(password))
  }

  /** `checkStrength(password)`: one of the five labels, the label of the
      rating that the number of criteria met selects. */
  function CheckStrength(password: string): (rating: string)
    ensures IsLabel(rating)
  {
    Classify(password).Label()
  }

  /** The count alone decides the label, in both directions, for each of the
      five labels. */
  lemma CheckStrengthByCount(password: string)
    ensures CheckStrength(password) == "Very Strong" <==> CriteriaMet(password) == 5
    ensures CheckStrength(password) == "Strong" <==> CriteriaMet(password) == 4
    ensures CheckStrength(password) == "Moderate" <==> CriteriaMet(password) == 3
    ensures CheckStrength(password) == "Weak" <==> CriteriaMet(password) == 2
    ensures CheckStrength(password) == "Very Weak" <==> CriteriaMet(password) <= 1
  {
  }

  /** The empty password meets no criterion and is rated Very Weak. */
  lemma EmptyIsVeryWeak()
    ensures CriteriaMet("") == 0
    ensures CheckStrength("") == "Very Weak"
  {
  }

  /** A password shorter than 8 characters meets at most 4 criteria and is
      never rated Very Strong. */
  lemma ShortNeverVeryStrong(password: string)
    requires |password| < 8
    ensures CriteriaMet(password) <= 4
    ensures Classify(password) != VeryStrong
    ensures CheckStrength(password) != "Very Strong"
  {
  }

  /** Appending characters never lowers the count of criteria met, and so never
      lowers the rating. */
  lemma {:induction false} AppendNeverWeakens(p: string, q: string)
    ensures CriteriaMet(p) <= CriteriaMet(p + q)
    ensures Classify(p).Rank() <= Classify(p + q).Rank()
  {
    CriteriaExtend(p, q);
    FilterTrueMonotone(Criteria(p), Criteria(p + q));
    StrengthOfMonotone(CriteriaMet(p), CriteriaMet(p + q));
  }

  /** A string made only of lower-case letters contains no digit, no
      upper-case letter and no special character. */
  lemma LowerCaseOnly(s: string)
    requires forall i :: 0 <= i < |s| ==> Matches(Lower, s[i])
    ensures !Test(Digit, s) && !Test(Upper, s) && !Test(Special, s)
  {
  }

  /** Every character of "password" is a lower-case letter. */
  lemma {:induction false} LowerCaseWordScans()
    ensures Test(Lower, "password")
    ensures !Test(Digit, "password") && !Test(Upper, "password") && !Test(Special, "password")
  {
    var w := "password";
    assert Matches(Lower, w[0]);
    forall i | 0 <= i < |w|
      ensures Matches(Lower, w[i])
    {
      assert w[i] in "password";
    }
    LowerCaseOnly(w);
  }

  /** "password" meets only the length and lower-case criteria: Weak. */
  lemma {:induction false} LowerCaseWordIsWeak()
    ensures CriteriaMet("password") == 2
    ensures CheckStrength("password") == "Weak"
  {
    LowerCaseWordScans();
  }

  /** "Passw0rd!" meets all five criteria: Very Strong. */
  lemma {:induction false} MixedWordIsVeryStrong()
    ensures CriteriaMet("Passw0rd!") == 5
    ensures CheckStrength("Passw0rd!") == "Very Strong"
  {
    var w := "Passw0rd!";
    assert Matches(Upper, w[0]) && Matches(Lower, w[1]);
    assert Matches(Digit, w[5]) && Matches(Special, w[8]);
  }

  // ---------------------------------------------------------------------------
  // Display colour
  // ---------------------------------------------------------------------------

  /** `getStrengthColor(strength)`: a colour other than black exactly for the
      five rating labels; black for any other string. */
  function GetStrengthColor(strength: string): (color: string)
    ensures color == "black" <==> !IsLabel(strength)
  {
    match strength
    case "Very Strong" => assert VeryStrong.Label() == strength; "green"
    case "Strong" => assert Strong.Label() == strength; "blue"
    case "Moderate" => assert Moderate.Label() == strength; "orange"
    case "Weak" => assert Weak.Label() == strength; "red"
    case "Very Weak" => assert VeryWeak.Label() == strength; "darkred"
    case _ =>
      assert strength != VeryWeak.Label() && strength != Weak.Label() && strength != Moderate.Label()
        && strength != Strong.Label() && strength != VeryStrong.Label();
      "black"
  }

  /** Each rating has its own colour: green, blue, orange, red and dark red
      from strongest to weakest, and no two ratings share one. */
  lemma ColorsDistinct(a: Strength, b: Strength)
    ensures GetStrengthColor(VeryStrong.Label()) == "green"
    ensures GetStrengthColor(Strong.Label()) == "blue"
    ensures GetStrengthColor(Moderate.Label()) == "orange"
    ensures GetStrengthColor(Weak.Label()) == "red"
    ensures GetStrengthColor(VeryWeak.Label()) == "darkred"
    ensures a != b ==> GetStrengthColor(a.Label()) != GetStrengthColor(b.Label())
  {
  }

  // ---------------------------------------------------------------------------
  // Component state
  // ---------------------------------------------------------------------------

  /** The component's two state variables. */
  class PasswordStrengthChecker {
    var password: string
    var strength: string

    /** The displayed rating is the rating of the current password. */
    predicate Consistent()
      reads this
    {
      strength == CheckStrength(password)
    }

    /** Both state variables start as the empty string. The empty string is not
        the rating of the empty password, so the state starts out inconsistent
        and its colour is black. */
    constructor ()
      ensures password == "" && strength == ""
      ensures !Consistent()
      ensures GetStrengthColor(strength) == "black"
    {
      password := "";
      strength := "";
      EmptyIsVeryWeak();
    }

    /** `handleChange`: store the new password and its rating. Afterwards the
        state is consistent and the displayed colour is never black. */
    method HandleChange(newPassword: string)
      modifies this
      ensures password == newPassword
      ensures strength == CheckStrength(newPassword)
      ensures Consistent()
      ensures GetStrengthColor(strength) != "black"
    {
      password := newPassword;
      strength := CheckStrength(newPassword);
    }
  }
}
