/**
 * The JSON values a request body carries, and the two Python conversions the
 * handlers apply to them: `int(v)` (which may fail) and `bool(v)` (which
 * never fails). Floating-point JSON numbers are not part of this model.
 */
module Request {
  import opened Clock

  datatype Option<T> = None | Some(value: T)

  datatype Result<T, E> = Success(value: T) | Failure(error: E)

  /** A decoded JSON value; arrays and objects are known by their size only. */
  datatype Json =
    | JNull
    | JBool(b: bool)
    | JInt(i: int)
    | JString(s: string)
    | JList(size: nat)
    | JDict(size: nat)

  /** A request body: a JSON object. */
  type Body = map<string, Json>

  /** `body.get(key, default)`: the default applies only when the key is absent, not when it holds null. */
  function Get(body: Body, key: string, default: Json): Json {
    if key in body then body[key] else default
  }

  /** Python truthiness, `bool(v)`. */
  function Truthy(v: Json): bool {
    match v
    case JNull => false
    case JBool(b) => b
    case JInt(i) => i != 0
    case JString(s) => s != ""
    case JList(n) => n != 0
    case JDict(n) => n != 0
  }

  /**
   * Python `int(v)`: booleans count as 0 and 1, integers pass through, text
   * is parsed as a decimal literal, and null, arrays and objects raise
   * (here: None).
   */
  function IntOf(v: Json): Option<int> {
    match v
    case JNull => None
    case JBool(b) => Some(if b then 1 else 0)
    case JInt(i) => Some(i)
    case JString(s) => ParseIntText(s)
    case JList(_) => None
    case JDict(_) => None
  }

  /** The ASCII whitespace that `int()` strips from both ends of its argument. */
  predicate IsSpace(c: char) {
    c == ' ' || c == '\t' || c == '\n' || c == '\r' || c == '\U{B}' || c == '\U{C}'
  }

  predicate AllSpace(s: string) {
    forall i :: 0 <= i < |s| ==> IsSpace(s[i])
  }

  function StripLeft(s: string): (r: string)
    ensures |r| <= |s|
    ensures r != [] ==> !IsSpace(r[0])
  {
    if s != [] && IsSpace(s[0]) then StripLeft(s[1..]) else s
  }

  function StripRight(s: string): (r: string)
    ensures |r| <= |s|
    ensures r != [] ==> !IsSpace(r[|r| - 1])
    ensures r == s[..|r|]
  {
    if s != [] && IsSpace(s[|s| - 1]) then StripRight(s[..|s| - 1]) else s
  }

  function Strip(s: string): string {
    StripRight(StripLeft(s))
  }

  /**
   * Decimal digits, optionally grouped by single underscores: the text must
   * start and end with a digit and every underscore is followed by a digit.
   */
  predicate IsDigitGroups(s: string) {
    && s != []
    && IsDigit(s[0])
    && IsDigit(s[|s| - 1])
    && DigitsOrUnderscores(s)
    && forall i :: 0 <= i < |s| - 1 && s[i] == '_' ==> IsDigit(s[i + 1])
  }

  predicate DigitsOrUnderscores(s: string) {
    forall i :: 0 <= i < |s| ==> IsDigit(s[i]) || s[i] == '_'
  }

  /** The number the digits of `s` spell, underscores skipped. */
  function DigitsValue(s: string): (n: nat)
    requires DigitsOrUnderscores(s)
  {
    if s == [] then 0
    else if s[|s| - 1] == '_' then DigitsValue(s[..|s| - 1])
    else DigitsValue(s[..|s| - 1]) * 10 + DigitValue(s[|s| - 1])
  }

  /** `int(s)` for a text `s`: surrounding whitespace, an optional sign, then digit groups. */
  function ParseIntText(s: string): Option<int> {
    var t := Strip(s);
    var signed := t != [] && (t[0] == '-' || t[0] == '+');
    var digits := if signed then t[1..] else t;
    if !IsDigitGroups(digits) then None
    else
      var n: int := DigitsValue(digits);
      Some(if signed && t[0] == '-' then -n else n)
  }

  /** `str(n)` for a non-negative integer: its decimal digits, no leading zeros. */
  function NatText(n: nat): (s: string)
    ensures s != [] && forall i :: 0 <= i < |s| ==> IsDigit(s[i])
  {
    if n < 10 then [DigitChar(n)] else NatText(n / 10) + [DigitChar(n % 10)]
  }

  /** `str(n)`: a minus sign for negative numbers, then the digits of the magnitude. */
  function IntText(n: int): string {
    if n < 0 then "-" + NatText(-n) else NatText(n)
  }

  lemma {:induction false} NatTextValue(n: nat)
    ensures DigitsValue(NatText(n)) == n
  {
    var s := NatText(n);
    if n >= 10 {
      NatTextValue(n / 10);
      assert s[..|s| - 1] == NatText(n / 10);
    }
  }


  lemma {:induction false} StripLeftPadded(pre: string, s: string)
    requires AllSpace(pre)
    requires s != [] && !IsSpace(s[0])
    ensures StripLeft(pre + s) == s
  {
    if pre != [] {
      assert (pre + s)[1..] == pre[1..] + s;
      StripLeftPadded(pre[1..], s);
    }
  }

  lemma {:induction false} StripRightPadded(s: string, post: string)
    requires AllSpace(post)
    requires s != [] && !IsSpace(s[|s| - 1])
    ensures StripRight(s + post) == s
  {
    if post != [] {
      var last := |post| - 1;
      assert (s + post)[..|s + post| - 1] == s + post[..last];
      StripRightPadded(s, post[..last]);
    }
  }

  /** Texts `int()` refuses: empty, a unit suffix, doubled or edge underscores, a space after the sign. */
  lemma ParseIntTextRejects()
    ensures ParseIntText("") == None && ParseIntText("30s") == None
    ensures ParseIntText("1__0") == None && ParseIntText("_1") == None
    ensures ParseIntText("- 5") == None && ParseIntText("3.5") == None
  {
    assert Strip("30s") == "30s" && !IsDigitGroups("30s") by { assert !IsDigit("30s"[2]); }
    assert Strip("1__0") == "1__0" && !IsDigitGroups("1__0") by { assert "1__0"[1] == '_' && !IsDigit("1__0"[2]); }
    assert Strip("_1") == "_1";
    assert Strip("- 5") == "- 5" && !IsDigitGroups(" 5");
    assert Strip("3.5") == "3.5" && !IsDigitGroups("3.5") by { assert !IsDigit("3.5"[1]); }
  }

  lemma StripPadded(pre: string, s: string, post: string)
    requires AllSpace(pre) && AllSpace(post)
    requires s != [] && !IsSpace(s[0]) && !IsSpace(s[|s| - 1])
    ensures Strip(pre + s + post) == s
  {
    assert pre + s + post == pre + (s + post);
    StripLeftPadded(pre, s + post);
    StripRightPadded(s, post);
  }

  lemma NatTextIsDigitGroups(n: nat)
    ensures IsDigitGroups(NatText(n)) && !IsSpace(NatText(n)[0])
  {
    var s := NatText(n);
    assert forall i :: 0 <= i < |s| ==> IsDigit(s[i]);
  }

  /**
   * `int()` reads back what `str()` writes, also with whitespace around it:
   * `int(" " + str(n) + "\n") == n`.
   */
  lemma {:induction false} ParseIntTextOfIntText(n: int, pre: string, post: string)
    requires AllSpace(pre) && AllSpace(post)
    ensures ParseIntText(pre + IntText(n) + post) == Some(n)
  {
    var body := IntText(n);
    var m: nat := if n < 0 then -n else n;
    var digits := NatText(m);
    NatTextIsDigitGroups(m);
    NatTextValue(m);
    StripPadded(pre, body, post);
    if n < 0 {
      assert body[1..] == digits;
    }
  }
}
