/** The small printers and parsers: decimal and hexadecimal numbers, tokens. Characters are
    bytes, classified as in the C locale. */
module Text {

  predicate IsDigit(c: char) {
    '0' <= c <= '9'
  }

  predicate IsSpace(c: char) {
    c == ' ' || c == '\t' || c == '\n' || c == '\U{0B}' || c == '\U{0C}' || c == '\r'
  }

  predicate AllDigits(s: string) {
    forall i | 0 <= i < |s| :: IsDigit(s[i])
  }

  // ----- Decimal numbers -----

  /** atoi on a string of digits; the empty string gives 0. */
  function Atoi(s: string): nat
    requires AllDigits(s)
  {
    if s == "" then 0 else Atoi(s[..|s| - 1]) * 10 + (s[|s| - 1] as int - '0' as int)
  }

  /** The characters that isdigit and isspace accept in the C locale. */
  lemma DigitsAre(c: char)
    ensures IsDigit(c) <==> c in "0123456789"
  {
    if IsDigit(c) {
      assert "0123456789"[c as int - '0' as int] == c;
    }
  }

  lemma SpacesAre(c: char)
    ensures IsSpace(c) <==> c as int == 32 || 9 <= c as int <= 13
  {}

  lemma {:induction false} LeadingZero(s: string)
    requires AllDigits(s)
    ensures AllDigits("0" + s) && Atoi("0" + s) == Atoi(s)
  {
    var z := "0" + s;
    assert forall i | 0 <= i < |z| :: IsDigit(z[i]);
    if s == "" {
      assert z == "0" && z[..0] == "";
      assert Atoi("") == 0;
    } else {
      assert z[..|z| - 1] == "0" + s[..|s| - 1];
      LeadingZero(s[..|s| - 1]);
    }
  }

  function Digit(d: nat): char
    requires d < 10
  {
    ('0' as int + d) as char
  }

  /** The printed form of a number. */
  function Decimal(n: nat): (s: string)
    ensures s != "" && AllDigits(s)
  {
    if n < 10 then [Digit(n)] else Decimal(n / 10) + [Digit(n % 10)]
  }

  lemma {:induction false} AtoiOfDecimal(n: nat)
    ensures Atoi(Decimal(n)) == n
  {
    if n >= 10 {
      AtoiOfDecimal(n / 10);
      assert Decimal(n)[..|Decimal(n)| - 1] == Decimal(n / 10);
    } else {
      assert Atoi(Decimal(n)[..0]) == 0;
    }
  }

  function Pow10(k: nat): (p: nat)
    ensures p > 0
  {
    if k == 0 then 1 else 10 * Pow10(k - 1)
  }

  lemma {:induction false} DecimalWidth(n: nat, k: nat)
    requires k > 0
    ensures |Decimal(n)| <= k <==> n < Pow10(k)
  {
    if n >= 10 && k > 1 {
      DecimalWidth(n / 10, k - 1);
    } else if k == 1 {
      assert Pow10(1) == 10;
    } else {
      assert Pow10(k - 1) >= 1;
    }
  }

  /** A number of at most k digits is below 10 to the k. */
  lemma {:induction false} AtoiBound(s: string)
    requires AllDigits(s)
    ensures Atoi(s) < Pow10(|s|)
  {
    if s != "" {
      AtoiBound(s[..|s| - 1]);
    }
  }

  // ----- Hexadecimal -----

  predicate IsByte(c: char) {
    c as int < 256
  }

  function HexDigit(d: nat): char
    requires d < 16
  {
    if d < 10 then ('0' as int + d) as char else ('a' as int + d - 10) as char
  }

  function HexValue(c: char): nat {
    if '0' <= c <= '9' then c as int - '0' as int
    else if 'a' <= c <= 'f' then c as int - 'a' as int + 10
    else 0
  }

  /** What the stream prints for the bytes: two digits each, in lower case. */
  function Hex(cookie: string): (hex: string)
    requires forall i | 0 <= i < |cookie| :: IsByte(cookie[i])
    ensures |hex| == 2 * |cookie|
    ensures forall i | 0 <= i < |hex| :: '0' <= hex[i] <= '9' || 'a' <= hex[i] <= 'f'
  {
    if cookie == "" then ""
    else
      assert IsByte(cookie[0]);
      [HexDigit(cookie[0] as int / 16), HexDigit(cookie[0] as int % 16)] + Hex(cookie[1..])
  }

  function Unhex(hex: string): string
    requires |hex| % 2 == 0
  {
    if hex == "" then "" else [(HexValue(hex[0]) * 16 + HexValue(hex[1])) as char] + Unhex(hex[2..])
  }

  lemma HexPair(c: char)
    requires IsByte(c)
    ensures (HexValue(HexDigit(c as int / 16)) * 16 + HexValue(HexDigit(c as int % 16))) as char == c
  {
    assert forall d: nat | d < 16 :: HexValue(HexDigit(d)) == d;
  }

  /** Every cookie decodes back from its printed form. */
  lemma {:induction false} UnhexOfHex(cookie: string)
    requires forall i | 0 <= i < |cookie| :: IsByte(cookie[i])
    ensures Unhex(Hex(cookie)) == cookie
  {
    hide HexDigit, HexValue;
    if cookie != "" {
      UnhexOfHex(cookie[1..]);
      HexPair(cookie[0]);
      assert Hex(cookie)[2..] == Hex(cookie[1..]);
      assert cookie == [cookie[0]] + cookie[1..];
    }
  }

  /** auth_cookie_to_hex */
  method AuthCookieToHex(source: string) returns (hex: string)
    requires forall i | 0 <= i < |source| :: IsByte(source[i])
    ensures hex == Hex(source)
  {
    hex := "";
    for i := 0 to |source|
      invariant hex + Hex(source[i..]) == Hex(source)
    {
      var b := source[i] as int;
      assert source[i..][1..] == source[i + 1..];
      hex := hex + [HexDigit(b / 16), HexDigit(b % 16)];
    }
  }

  // ----- Tokens -----

  predicate IsToken(s: string) {
    s != "" && forall i | 0 <= i < |s| :: !IsSpace(s[i])
  }

  /** The tokens of `current + s`, where `current` is the token read so far. */
  function TokensFrom(current: string, s: string): (tokens: seq<string>)
    requires forall i | 0 <= i < |current| :: !IsSpace(current[i])
    ensures forall i | 0 <= i < |tokens| :: IsToken(tokens[i])
    decreases |s|
  {
    if s == "" then Emit(current)
    else if IsSpace(s[0]) then Emit(current) + TokensFrom("", s[1..])
    else TokensFrom(current + [s[0]], s[1..])
  }

  function Emit(current: string): seq<string> {
    if current != "" then [current] else []
  }

  /** The maximal runs of non-space characters, in order. */
  function Tokens(s: string): (tokens: seq<string>)
    ensures forall i | 0 <= i < |tokens| :: IsToken(tokens[i])
  {
    TokensFrom("", s)
  }

  method Tokenize(s: string) returns (tokens: seq<string>)
    ensures tokens == Tokens(s)
  {
    tokens := [];
    var cur := "";
    for i := 0 to |s|
      invariant forall j | 0 <= j < |cur| :: !IsSpace(cur[j])
      invariant tokens + TokensFrom(cur, s[i..]) == Tokens(s)
    {
      var c := s[i];
      assert s[i..][1..] == s[i + 1..];
      if IsSpace(c) {
        if cur != "" {
          tokens := tokens + [cur];
          cur := "";
        }
      } else {
        cur := cur + [c];
      }
    }
    if cur != "" {
      tokens := tokens + [cur];
    }
  }

  lemma {:induction false} TokensFromSplit(current: string, a: string, space: char, b: string)
    requires forall i | 0 <= i < |current| :: !IsSpace(current[i])
    requires IsSpace(space)
    ensures TokensFrom(current, a + [space] + b) == TokensFrom(current, a) + Tokens(b)
    decreases |a|
  {
    var s := a + [space] + b;
    if a == "" {
      assert s[0] == space && s[1..] == b;
    } else {
      assert s[0] == a[0] && s[1..] == a[1..] + [space] + b;
      if IsSpace(a[0]) {
        TokensFromSplit("", a[1..], space, b);
      } else {
        TokensFromSplit(current + [a[0]], a[1..], space, b);
      }
    }
  }

  /** Tokenizing distributes over concatenation with white space between. */
  lemma TokensOfConcat(a: string, space: char, b: string)
    requires IsSpace(space)
    ensures Tokens(a + [space] + b) == Tokens(a) + Tokens(b)
  {
    TokensFromSplit("", a, space, b);
  }

  lemma {:induction false} TokensFromToken(current: string, t: string)
    requires forall i | 0 <= i < |current| :: !IsSpace(current[i])
    requires forall i | 0 <= i < |t| :: !IsSpace(t[i])
    ensures TokensFrom(current, t) == Emit(current + t)
    decreases |t|
  {
    if t == "" {
      assert current + t == current;
    } else {
      TokensFromToken(current + [t[0]], t[1..]);
      assert current + [t[0]] + t[1..] == current + t;
    }
  }

  function SpaceJoin(tokens: seq<string>): string {
    if tokens == [] then ""
    else if |tokens| == 1 then tokens[0]
    else tokens[0] + " " + SpaceJoin(tokens[1..])
  }

  /** Tokenizing inverts joining with spaces. */
  lemma {:induction false} TokensOfJoin(tokens: seq<string>)
    requires forall i | 0 <= i < |tokens| :: IsToken(tokens[i])
    ensures Tokens(SpaceJoin(tokens)) == tokens
  {
    if tokens != [] {
      TokensFromToken("", tokens[0]);
      assert "" + tokens[0] == tokens[0];
      assert tokens == [tokens[0]] + tokens[1..];
      if |tokens| > 1 {
        TokensOfJoin(tokens[1..]);
        TokensOfConcat(tokens[0], ' ', SpaceJoin(tokens[1..]));
      }
    }
  }
}
