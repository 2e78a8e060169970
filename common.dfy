/** Values shared by the whole model: optional values, Java string references,
    32-bit integers and their decimal text (Integer.toString / Integer.parseInt). */
module Common {

  datatype Option<T> = None | Some(value: T)

  /** A Java `String` reference: `null` or a character sequence. */
  datatype JString = JNull | JStr(s: string)

  /** The text Java's `+` writes for a string reference: the characters, or "null". */
  function Show(j: JString): string
  {
    match j
    case JNull => "null"
    case JStr(s) => s
  }

  /** A Java `byte`: a signed 8-bit value. */
  newtype JByte = b: int | -128 <= b < 128

  /** Java's `(byte) v` cast: keeps the low eight bits, read as two's complement. */
  function ToJByte(v: int): (b: JByte)
    ensures (b as int - v) % 256 == 0
    ensures -128 <= v < 128 ==> b as int == v
  {
    var low := v % 256;
    (if low >= 128 then low - 256 else low) as JByte
  }

  function Min(a: int, b: int): int
  {
    if a <= b then a else b
  }

  /** A (width, height) pair in pixels (the app's `ImageSize`). */
  datatype ImageSize = ImageSize(width: int, height: int)

  const INT_MIN: int := -0x8000_0000
  const INT_MAX: int := 0x7fff_ffff

  predicate IsInt32(n: int)
  {
    INT_MIN <= n <= INT_MAX
  }

  predicate IsDigit(c: char)
  {
    '0' <= c <= '9'
  }

  predicate AllDigits(s: string)
  {
    forall i :: 0 <= i < |s| ==> IsDigit(s[i])
  }

  function DigitChar(d: nat): (c: char)
    requires d < 10
    ensures IsDigit(c) && c as int - '0' as int == d
  {
    ('0' as int + d) as char
  }

  /** Decimal text of a natural number, most significant digit first. */
  function NatToString(n: nat): (r: string)
    ensures |r| > 0 && AllDigits(r)
    decreases n
  {
    if n < 10 then [DigitChar(n)] else NatToString(n / 10) + [DigitChar(n % 10)]
  }

  /** `Integer.toString(n)`. */
  function IntToString(n: int): string
  {
    if n < 0 then "-" + NatToString(-n) else NatToString(n)
  }

  /** The value of a run of decimal digits. */
  function DigitsValue(s: string): nat
    requires AllDigits(s)
  {
    if s == [] then 0 else DigitsValue(s[..|s| - 1]) * 10 + (s[|s| - 1] as int - '0' as int)
  }

  /** `Integer.parseInt(s)`: an optional sign and at least one decimal digit whose
      value fits in 32 bits; `null` and every other text raise NumberFormatException,
      modelled as `None`. */
  function ParseInt(j: JString): (r: Option<int>)
    ensures r.Some? ==> IsInt32(r.value)
    ensures j.JNull? ==> r.None?
    ensures j == JStr("") ==> r.None?
  {
    match j
    case JNull => None
    case JStr(s) =>
      if |s| == 0 then None
      else
        var signed := s[0] == '-' || s[0] == '+';
        var digits := if signed then s[1..] else s;
        if |digits| == 0 || !AllDigits(digits) then None
        else
          var v: int := if s[0] == '-' then 0 - DigitsValue(digits) as int else DigitsValue(digits);
          if IsInt32(v) then Some(v) else None
  }

  lemma {:induction false} NatToStringValue(n: nat)
    ensures DigitsValue(NatToString(n)) == n
    decreases n
  {
    var s := NatToString(n);
    if n >= 10 {
      NatToStringValue(n / 10);
      assert s[..|s| - 1] == NatToString(n / 10);
    }
  }

  /** Round trip: `Integer.parseInt(Integer.toString(n)) == n` for every 32-bit `n`. */
  lemma {:induction false} ParseIntOfIntToString(n: int)
    requires IsInt32(n)
    ensures ParseInt(JStr(IntToString(n))) == Some(n)
  {
    var s := IntToString(n);
    if n < 0 {
      var d := NatToString(-n);
      NatToStringValue(-n);
      assert s == "-" + d && s[0] == '-';
      assert s[1..] == d;
    } else {
      NatToStringValue(n);
      assert IsDigit(s[0]);
    }
  }

  // ---------------------------------------------------------------------------
  // Text comparisons of `java.lang.String` and the acceptance test of `java.net.URL`.

  /** `Character.toLowerCase` on ASCII letters; other characters are kept. */
  function LowerChar(c: char): (r: char)
    ensures 'A' <= c <= 'Z' ==> 'a' <= r <= 'z'
    ensures !('A' <= c <= 'Z') ==> r == c
  {
    if 'A' <= c <= 'Z' then (c as int + 32) as char else c
  }

  function Lower(s: string): (r: string)
    ensures |r| == |s|
    ensures forall i :: 0 <= i < |s| ==> r[i] == LowerChar(s[i])
  {
    if s == [] then [] else [LowerChar(s[0])] + Lower(s[1..])
  }

  /** `a.equalsIgnoreCase(b)` for a non-null `a`: equal lengths and equal
      characters once letters are lower-cased. */
  predicate EqualsIgnoreCase(a: string, b: JString)
  {
    b.JStr? && |a| == |b.s| && Lower(a) == Lower(b.s)
  }

  predicate IsLetter(c: char)
  {
    'a' <= c <= 'z' || 'A' <= c <= 'Z'
  }

  /** A URL scheme: a letter, then letters, digits, `+`, `-` or `.`. */
  predicate IsScheme(s: string)
  {
    |s| > 0 && IsLetter(s[0]) &&
    forall i :: 0 < i < |s| ==> IsLetter(s[i]) || IsDigit(s[i]) || s[i] in "+-."
  }

  /** The protocols `java.net.URL` has a handler for. */
  predicate KnownProtocol(scheme: string)
  {
    Lower(scheme) in {"http", "https", "ftp", "file", "jar"}
  }

  /** The scheme test of `new URL(spec)`: the text before the first `:` is
      a scheme with a protocol handler; `null` fails it. */
  predicate ValidUrl(spec: JString)
  {
    spec.JStr? && ':' in spec.s &&
    exists i :: 0 < i < |spec.s| && spec.s[i] == ':' && ':' !in spec.s[..i] && IsScheme(spec.s[..i]) && KnownProtocol(spec.s[..i])
  }

  /** A scheme with a handler, a colon, then anything passes the scheme test. */
  lemma {:induction false} ValidUrlOf(scheme: string, rest: string)
    requires IsScheme(scheme) && KnownProtocol(scheme) && ':' !in scheme
    ensures ValidUrl(JStr(scheme + [':'] + rest))
  {
    var s := scheme + [':'] + rest;
    assert s[|scheme|] == ':' && s[..|scheme|] == scheme;
  }

  /** Lower-case text is its own lower-case form. */
  lemma {:induction false} LowerKeepsLowercase(w: string)
    requires forall i :: 0 <= i < |w| ==> 'a' <= w[i] <= 'z'
    ensures Lower(w) == w
  {
    if w != [] {
      LowerKeepsLowercase(w[1..]);
    }
  }

  /** Text made of letters only never equals, ignoring case, a text that
      holds a `:`, such as an accepted URL. */
  lemma {:induction false} ColonTextIsNoWord(a: string, word: string)
    requires ':' in a
    requires forall i :: 0 <= i < |word| ==> IsLetter(word[i])
    ensures !EqualsIgnoreCase(a, JStr(word))
  {
    var i :| 0 <= i < |a| && a[i] == ':';
    if |a| == |word| {
      assert Lower(a)[i] == ':' != Lower(word)[i];
    }
  }
}
