/**
 * The test-data utilities of the suite (utilities/helpers.ts): the fixed table
 * of test accounts and the random form-data generator.
 *
 * `Math.random()` is not modelled as a source of randomness: the generator
 * takes the values it would have returned as an input sequence of draws, one
 * pair per character, so that its behaviour is a deterministic function of
 * its arguments.
 */
module Helpers {

  // ------------------------------------------------------------------
  // Test accounts (`testUsers`)
  // ------------------------------------------------------------------

  /** A login credential pair. */
  datatype Credential = Credential(name: string, password: string)

  /** The keys of the `testUsers` table. */
  datatype Role = ValidUser | InvalidUser | LockedOutUser | ProblemUser | PerformanceGlitchUser

  /** Every role, in the order the table declares them. */
  const Roles: seq<Role> := [ValidUser, InvalidUser, LockedOutUser, ProblemUser, PerformanceGlitchUser]

  /** The password the storefront accepts for all of its demo accounts. */
  const SharedPassword: string := "secret_sauce"

  /** The entry of `testUsers` stored under a role. */
  function TestUser(role: Role): (c: Credential)
    ensures c.password == SharedPassword <==> role != InvalidUser
    ensures role == ValidUser ==> c.name == "standard_user"
  {
    match role
    case ValidUser => Credential("standard_user", SharedPassword)
    case InvalidUser => Credential("invalid_user", "wrong_password")
    case LockedOutUser => Credential("locked_out_user", SharedPassword)
    case ProblemUser => Credential("problem_user", SharedPassword)
    case PerformanceGlitchUser => Credential("performance_glitch_user", SharedPassword)
  }

  /** The table has five entries, one per role, and no two share a user name. */
  lemma TestUsersTable()
    ensures |Roles| == 5
    ensures forall role: Role :: role in Roles
    ensures forall i, j :: 0 <= i < j < |Roles| ==> Roles[i] != Roles[j]
    ensures forall i, j :: 0 <= i < j < |Roles| ==> TestUser(Roles[i]).name != TestUser(Roles[j]).name
  {
    forall role: Role ensures role in Roles {
      match role
      case ValidUser => assert Roles[0] == role;
      case InvalidUser => assert Roles[1] == role;
      case LockedOutUser => assert Roles[2] == role;
      case ProblemUser => assert Roles[3] == role;
      case PerformanceGlitchUser => assert Roles[4] == role;
    }
  }

  // ------------------------------------------------------------------
  // Character classes (`charRanges`)
  // ------------------------------------------------------------------

  /** An inclusive range of character codes, `[min, max]`. */
  datatype CharRange = CharRange(min: int, max: int)

  const Uppercase: CharRange := CharRange(65, 90)   // 'A' to 'Z'
  const Lowercase: CharRange := CharRange(97, 122)  // 'a' to 'z'
  const Numbers: CharRange := CharRange(48, 57)     // '0' to '9'
  const Symbols: CharRange := CharRange(33, 47)     // '!' to '/'

  /** The four boolean flags of `generateRandomString`, in parameter order. */
  datatype Options = Options(uppercase: bool, lowercase: bool, numbers: bool, symbols: bool)

  /** The parameter defaults: length 8, lowercase letters only. */
  const DefaultLength: int := 8
  const DefaultOptions: Options := Options(false, true, false, false)

  predicate NoneSelected(o: Options) {
    !o.uppercase && !o.lowercase && !o.numbers && !o.symbols
  }

  predicate IsClass(r: CharRange) {
    r == Uppercase || r == Lowercase || r == Numbers || r == Symbols
  }

  /** Position of a class in the order the generator pushes the classes. */
  function Rank(r: CharRange): nat {
    if r == Uppercase then 0
    else if r == Lowercase then 1
    else if r == Numbers then 2
    else 3
  }

  predicate InRange(c: char, r: CharRange) {
    r.min <= c as int <= r.max
  }

  /**
   * The range list the generator builds before its loop: the selected
   * classes in the fixed order uppercase, lowercase, numbers, symbols, or
   * lowercase alone when no flag is set.
   */
  function Ranges(o: Options): (rs: seq<CharRange>)
    ensures |rs| > 0
    ensures forall r :: r in rs ==> IsClass(r)
    ensures Uppercase in rs <==> o.uppercase
    ensures Lowercase in rs <==> o.lowercase || NoneSelected(o)
    ensures Numbers in rs <==> o.numbers
    ensures Symbols in rs <==> o.symbols
    ensures NoneSelected(o) ==> rs == [Lowercase]
  {
    var picked := Pick(o.uppercase, Uppercase) + Pick(o.lowercase, Lowercase)
                  + Pick(o.numbers, Numbers) + Pick(o.symbols, Symbols);
    if picked == [] then [Lowercase] else picked
  }

  /** The one-element list `[r]` when the flag is set, otherwise the empty list. */
  function Pick(flag: bool, r: CharRange): seq<CharRange> {
    if flag then [r] else []
  }

  /** The classes appear in the order the generator pushes them, each at most once. */
  lemma RangesInPushOrder(o: Options)
    ensures forall i, j :: 0 <= i < j < |Ranges(o)| ==> Rank(Ranges(o)[i]) < Rank(Ranges(o)[j])
  {
    var u, l, n := Pick(o.uppercase, Uppercase), Pick(o.lowercase, Lowercase), Pick(o.numbers, Numbers);
    var rs := Ranges(o);
    forall i, j | 0 <= i < j < |rs| ensures Rank(rs[i]) < Rank(rs[j]) {
      if rs != [Lowercase] {
        assert rs == u + l + n + Pick(o.symbols, Symbols);
        assert rs[j] == Symbols || i < |u + l + n|;
      }
    }
  }

  /**
   * Whether a character belongs to a class the options select, stated on
   * character literals rather than codes; with no flag set, lowercase.
   */
  predicate Allowed(o: Options, c: char) {
    (o.uppercase && 'A' <= c <= 'Z')
    || ((o.lowercase || NoneSelected(o)) && 'a' <= c <= 'z')
    || (o.numbers && '0' <= c <= '9')
    || (o.symbols && '!' <= c <= '/')
  }

  /** The union of the code ranges in `Ranges(o)` is exactly the set of allowed characters. */
  lemma AllowedIffInSelectedRange(o: Options, c: char)
    ensures Allowed(o, c) <==> exists r :: r in Ranges(o) && InRange(c, r)
  {
    var rs := Ranges(o);
    if Allowed(o, c) {
      if o.uppercase && 'A' <= c <= 'Z' {
        assert Uppercase in rs && InRange(c, Uppercase);
      } else if (o.lowercase || NoneSelected(o)) && 'a' <= c <= 'z' {
        assert Lowercase in rs && InRange(c, Lowercase);
      } else if o.numbers && '0' <= c <= '9' {
        assert Numbers in rs && InRange(c, Numbers);
      } else {
        assert Symbols in rs && InRange(c, Symbols);
      }
    }
  }

  // ------------------------------------------------------------------
  // The generator (`generateRandomString`)
  // ------------------------------------------------------------------

  /** The two `Math.random()` values one loop iteration consumes. */
  datatype Draw = Draw(rangeRoll: real, charRoll: real)

  /** `Math.random()` returns a value in [0, 1). */
  predicate ValidDraw(d: Draw) {
    0.0 <= d.rangeRoll < 1.0 && 0.0 <= d.charRoll < 1.0
  }

  predicate ValidDraws(draws: seq<Draw>) {
    forall i :: 0 <= i < |draws| ==> ValidDraw(draws[i])
  }

  /** `Math.floor(roll * n)` for a roll in [0, 1): an index below `n`. */
  function Scale(roll: real, n: nat): (k: nat)
    requires 0.0 <= roll < 1.0 && n > 0
    ensures k < n
  {
    assert 0.0 <= roll * n as real < n as real by {
      assert (1.0 - roll) * n as real > 0.0;
    }
    (roll * n as real).Floor
  }

  /**
   * The character one loop iteration appends: pick a range with the first
   * roll, then an offset inside it with the second. The chosen code stays
   * within the picked range.
   */
  function CharFor(ranges: seq<CharRange>, d: Draw): (c: char)
    requires |ranges| > 0 && forall r :: r in ranges ==> IsClass(r)
    requires ValidDraw(d)
    ensures exists r :: r in ranges && InRange(c, r)
  {
    var r := ranges[Scale(d.rangeRoll, |ranges|)];
    assert r in ranges && IsClass(r);
    var code := r.min + Scale(d.charRoll, r.max - r.min + 1);
    assert r.min <= code <= r.max;
    code as char
  }

  /**
   * The first half of `generateRandomString`: push the range of each
   * selected class, in parameter order, and fall back to lowercase when the
   * list is still empty.
   */
  method SelectRanges(o: Options) returns (charRanges: seq<CharRange>)
    ensures charRanges == Ranges(o)
  {
    charRanges := [];
    if o.uppercase {
      charRanges := charRanges + [Uppercase];
    }
    assert charRanges == Pick(o.uppercase, Uppercase);
    if o.lowercase {
      charRanges := charRanges + [Lowercase];
    }
    assert charRanges == Pick(o.uppercase, Uppercase) + Pick(o.lowercase, Lowercase);
    if o.numbers {
      charRanges := charRanges + [Numbers];
    }
    assert charRanges == Pick(o.uppercase, Uppercase) + Pick(o.lowercase, Lowercase) + Pick(o.numbers, Numbers);
    if o.symbols {
      charRanges := charRanges + [Symbols];
    }
    if |charRanges| == 0 {
      charRanges := charRanges + [Lowercase];
    }
  }

  /**
   * One iteration of the generator's loop: choose a range with the first
   * roll, an offset inside it with the second, and turn `min + offset` into
   * a character.
   */
  method NextChar(charRanges: seq<CharRange>, d: Draw) returns (c: char)
    requires |charRanges| > 0 && forall r :: r in charRanges ==> IsClass(r)
    requires ValidDraw(d)
    ensures c == CharFor(charRanges, d)
    ensures exists r :: r in charRanges && InRange(c, r)
  {
    var rangeIndex := Scale(d.rangeRoll, |charRanges|);
    var charRange := charRanges[rangeIndex];
    assert charRange in charRanges;
    var min, max := charRange.min, charRange.max;
    var rangeSize := max - min + 1;
    var randomNum := Scale(d.charRoll, rangeSize);
    var charCode := min + randomNum;
    c := charCode as char;
  }

  /**
   * `generateRandomString(length, uppercase, lowercase, numbers, symbols)`
   * with `draws[i]` the two random values consumed for the i-th character.
   * The result has `length` characters (none when `length <= 0`), each one
   * from a selected class, and each determined by its own draw.
   */
  method GenerateRandomString(length: int, o: Options, draws: seq<Draw>) returns (result: string)
    requires length <= |draws| && ValidDraws(draws)
    ensures |result| == if length > 0 then length else 0
    ensures forall i :: 0 <= i < |result| ==> Allowed(o, result[i])
    ensures forall i :: 0 <= i < |result| ==> result[i] == CharFor(Ranges(o), draws[i])
  {
    var charRanges := SelectRanges(o);
    result := "";
    var i := 0;
    while i < length
      invariant 0 <= i <= (if length > 0 then length else 0)
      invariant |result| == i
      invariant forall k :: 0 <= k < i ==> result[k] == CharFor(charRanges, draws[k])
      invariant forall k :: 0 <= k < i ==> Allowed(o, result[k])
    {
      var c := NextChar(charRanges, draws[i]);
      AllowedIffInSelectedRange(o, c);
      result := result + [c];
      i := i + 1;
    }
  }

  /** `generateRandomString()` with every default: eight lowercase letters. */
  method DefaultRandomString(draws: seq<Draw>) returns (s: string)
    requires DefaultLength <= |draws| && ValidDraws(draws)
    ensures |s| == 8
    ensures forall i :: 0 <= i < |s| ==> 'a' <= s[i] <= 'z'
  {
    s := GenerateRandomString(DefaultLength, DefaultOptions, draws);
  }

  /** `generateRandomString(5, false, false, true)`: a postal code of five decimal digits. */
  method PostalCode(draws: seq<Draw>) returns (s: string)
    requires 5 <= |draws| && ValidDraws(draws)
    ensures |s| == 5
    ensures forall i :: 0 <= i < |s| ==> '0' <= s[i] <= '9'
  {
    s := GenerateRandomString(5, Options(false, false, true, false), draws);
  }

  /**
   * Selecting a class does not make it appear: with uppercase and lowercase
   * both selected, draws that always pick the second range and its first
   * code give a string of `'a'` only.
   */
  lemma SelectedClassMayBeAbsent(draws: seq<Draw>)
    requires forall i :: 0 <= i < |draws| ==> draws[i] == Draw(0.5, 0.0)
    ensures ValidDraws(draws)
    ensures forall i :: 0 <= i < |draws| ==>
              CharFor(Ranges(Options(true, true, false, false)), draws[i]) == 'a'
  {
    var o := Options(true, true, false, false);
    assert Ranges(o) == [Uppercase, Lowercase];
    assert Scale(0.5, 2) == 1;
    assert Scale(0.0, 26) == 0;
  }
}
