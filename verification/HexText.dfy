/**
 The textual form of a program: what `--program-hex` accepts, and the forms bytes are
 written in. Characters outside ASCII are not modelled.
 */
module HexText {
  import opened Words
  import opened Ebpf

  datatype Parsed = Bytes(bytes: seq<u8>) | OddDigits | InvalidByte

  // ----- Python string operations -----

  function ReplaceChar(s: string, c: char): string {
    if s == "" then "" else [if s[0] == c then ' ' else s[0]] + ReplaceChar(s[1..], c)
  }

  /** `s.replace(ab, " ")`: leftmost, non-overlapping. */
  function ReplacePair(s: string, a: char, b: char): string {
    if |s| < 2 then s
    else if s[0] == a && s[1] == b then " " + ReplacePair(s[2..], a, b)
    else [s[0]] + ReplacePair(s[1..], a, b)
  }

  function Normalize(s: string): string {
    ReplacePair(ReplacePair(ReplaceChar(s, ','), '\\', 'x'), '0', 'x')
  }

  predicate IsSpace(c: char) {
    c == ' ' || ('\t' <= c <= '\r') || (0x1c as char <= c <= 0x1f as char)
  }

  /** Length of the leading run of non-space characters. */
  function WordLength(s: string): (n: nat)
    ensures n <= |s|
    ensures s != "" && !IsSpace(s[0]) ==> n > 0
  {
    if s == "" || IsSpace(s[0]) then 0 else 1 + WordLength(s[1..])
  }

  /** `s.split()`. */
  function Split(s: string): seq<string> {
    if s == "" then []
    else if IsSpace(s[0]) then Split(s[1..])
    else [s[..WordLength(s)]] + Split(s[WordLength(s)..])
  }

  function HexDigit(c: char): Option<nat> {
    if '0' <= c <= '9' then Some(c as int - '0' as int)
    else if 'a' <= c <= 'f' then Some(c as int - 'a' as int + 10)
    else if 'A' <= c <= 'F' then Some(c as int - 'A' as int + 10)
    else None
  }

  /** Digits with single underscores between them. */
  function ParseDigits(s: string, acc: nat, needDigit: bool): Option<nat> {
    if s == "" then if needDigit then None else Some(acc)
    else if s[0] == '_' then if needDigit then None else ParseDigits(s[1..], acc, true)
    else match HexDigit(s[0])
      case Some(d) => ParseDigits(s[1..], 16 * acc + d, false)
      case None => None
  }

  /** `int(s, 16)` of an unsigned token: a 0x prefix and an underscore after it are allowed. */
  function ParseUnsigned(s: string): Option<nat> {
    if |s| >= 2 && s[0] == '0' && (s[1] == 'x' || s[1] == 'X') then
      ParseDigits(if |s| > 2 && s[2] == '_' then s[3..] else s[2..], 0, true)
    else ParseDigits(s, 0, true)
  }

  function Negated(n: Option<nat>): Option<int> {
    if n.Some? then Some(-(n.value as int)) else None
  }

  /** `int(s, 16)`. */
  function ParseInt(s: string): Option<int> {
    if s != "" && s[0] == '+' then ParseUnsigned(s[1..])
    else if s != "" && s[0] == '-' then
      Negated(ParseUnsigned(s[1..]))
    else ParseUnsigned(s)
  }

  /** `bytes(int(token, 16) for token in tokens)`, where any bad token is an error. */
  function ParseTokens(tokens: seq<string>): Parsed {
    if tokens == [] then Bytes([])
    else match ParseInt(tokens[0])
      case None => InvalidByte
      case Some(v) =>
        if !(0 <= v < 0x100) then InvalidByte
        else match ParseTokens(tokens[1..])
          case Bytes(rest) => Bytes([v] + rest)
          case bad => bad
  }

  function Pairs(s: string): seq<string>
    requires |s| % 2 == 0
  {
    if s == "" then [] else [s[..2]] + Pairs(s[2..])
  }

  /** A single long token is compact hex; otherwise one byte per token. */
  function ParseSplit(tokens: seq<string>): Parsed {
    if |tokens| == 1 && |tokens[0]| > 2 then
      if |tokens[0]| % 2 != 0 then OddDigits else ParseTokens(Pairs(tokens[0]))
    else ParseTokens(tokens)
  }

  function ParseProgramHex(text: string): Parsed {
    ParseSplit(Split(Normalize(text)))
  }

  // ----- the written forms -----

  function DigitChar(d: nat): char
    requires d < 16
  {
    if d < 10 then '0' + d as char else 'a' + (d - 10) as char
  }

  function Hex2(b: u8): string {
    [DigitChar(b / 16), DigitChar(b % 16)]
  }

  /** `first` before the first byte's digits, `other` before each later one's. */
  function Text(first: string, other: string, bytes: seq<u8>): string
    decreases |bytes|
  {
    if bytes == [] then "" else first + Hex2(bytes[0]) + Text(other, other, bytes[1..])
  }

  datatype Form = Spaced | Compact | Commas | ZeroX | ZeroXCommas | BackslashX

  function FirstOf(f: Form): string {
    match f case Spaced => "" case Compact => "" case Commas => ""
            case ZeroX => "0x" case ZeroXCommas => "0x" case BackslashX => "\\x"
  }

  function OtherOf(f: Form): string {
    match f case Spaced => " " case Compact => "" case Commas => ","
            case ZeroX => " 0x" case ZeroXCommas => ",0x" case BackslashX => "\\x"
  }

  function Written(f: Form, bytes: seq<u8>): string {
    Text(FirstOf(f), OtherOf(f), bytes)
  }

  // ----- replacement passes -----

  lemma {:induction false} ReplaceCharConcat(u: string, v: string, c: char)
    ensures ReplaceChar(u + v, c) == ReplaceChar(u, c) + ReplaceChar(v, c)
  {
    if u == "" {
      assert u + v == v;
    } else {
      assert (u + v)[1..] == u[1..] + v;
      ReplaceCharConcat(u[1..], v, c);
    }
  }

  lemma PairStep(s: string, a: char, b: char)
    ensures |s| < 2 ==> ReplacePair(s, a, b) == s
    ensures |s| >= 2 && s[0] == a && s[1] == b ==> ReplacePair(s, a, b) == " " + ReplacePair(s[2..], a, b)
    ensures |s| >= 2 && !(s[0] == a && s[1] == b) ==> ReplacePair(s, a, b) == [s[0]] + ReplacePair(s[1..], a, b)
  {
  }

  /** Replacement works piecewise unless an occurrence straddles the cut. */
  lemma {:induction false} ReplacePairConcat(u: string, v: string, a: char, b: char)
    requires u != "" && v != "" ==> u[|u| - 1] != a || v[0] != b
    ensures ReplacePair(u + v, a, b) == ReplacePair(u, a, b) + ReplacePair(v, a, b)
  {
    hide ReplacePair;
    PairStep(u, a, b);
    PairStep(v, a, b);
    PairStep(u + v, a, b);
    if u == "" {
      assert u + v == v;
    } else if |u| == 1 {
      assert (u + v)[1..] == v;
    } else if u[0] == a && u[1] == b {
      assert (u + v)[2..] == u[2..] + v;
      ReplacePairConcat(u[2..], v, a, b);
    } else {
      assert (u + v)[1..] == u[1..] + v;
      ReplacePairConcat(u[1..], v, a, b);
    }
  }

  lemma DigitsPlain(b: u8)
    ensures var h := Hex2(b); forall i | 0 <= i < 2 :: h[i] != ',' && h[i] != '\\' && h[i] != 'x' && !IsSpace(h[i])
    ensures ReplaceChar(Hex2(b), ',') == Hex2(b)
    ensures ReplacePair(Hex2(b), '\\', 'x') == Hex2(b)
    ensures ReplacePair(Hex2(b), '0', 'x') == Hex2(b)
  {
    var h := Hex2(b);
    assert ReplaceChar(h, ',') == [h[0]] + ReplaceChar(h[1..], ',');
    assert h[1..] == [h[1]];
    assert ReplaceChar(h[1..], ',') == [h[1]] + ReplaceChar(h[1..][1..], ',');
    assert ReplacePair(h, '\\', 'x') == [h[0]] + ReplacePair(h[1..], '\\', 'x');
    assert ReplacePair(h, '0', 'x') == [h[0]] + ReplacePair(h[1..], '0', 'x');
  }

  /** The first character of a later part, if there is one. */
  lemma TextStart(first: string, other: string, bytes: seq<u8>)
    requires Text(first, other, bytes) != ""
    ensures bytes != [] && Text(first, other, bytes)[0] == (first + Hex2(bytes[0]))[0]
  {
  }

  lemma {:induction false} CommaPass(first: string, other: string, bytes: seq<u8>)
    ensures ReplaceChar(Text(first, other, bytes), ',')
         == Text(ReplaceChar(first, ','), ReplaceChar(other, ','), bytes)
    decreases |bytes|
  {
    if bytes != [] {
      var h, rest := Hex2(bytes[0]), Text(other, other, bytes[1..]);
      DigitsPlain(bytes[0]);
      ReplaceCharConcat(first + h, rest, ',');
      ReplaceCharConcat(first, h, ',');
      CommaPass(other, other, bytes[1..]);
    }
  }

  /** A pair pass rewrites the parts between digits only, when no part begins with its second character. */
  lemma {:induction false} PairPass(first: string, other: string, bytes: seq<u8>, a: char)
    requires a == '\\' || a == '0'
    requires other != "" ==> other[0] != 'x'
    ensures ReplacePair(Text(first, other, bytes), a, 'x')
         == Text(ReplacePair(first, a, 'x'), ReplacePair(other, a, 'x'), bytes)
    decreases |bytes|
  {
    if bytes != [] {
      var h, rest := Hex2(bytes[0]), Text(other, other, bytes[1..]);
      DigitsPlain(bytes[0]);
      if rest != "" {
        TextStart(other, other, bytes[1..]);
        DigitsPlain(bytes[1]);
      }
      ReplacePairConcat(first + h, rest, a, 'x');
      ReplacePairConcat(first, h, a, 'x');
      PairPass(other, other, bytes[1..], a);
    }
  }

  predicate AllSpace(s: string) {
    forall i | 0 <= i < |s| :: IsSpace(s[i])
  }

  lemma {:induction false} NoComma(s: string)
    requires ',' !in s
    ensures ReplaceChar(s, ',') == s
  {
    if s != "" {
      NoComma(s[1..]);
    }
  }

  lemma {:induction false} NoPair(s: string, a: char)
    requires a !in s
    ensures ReplacePair(s, a, 'x') == s
  {
    if |s| >= 2 {
      NoPair(s[1..], a);
    }
  }

  lemma PrefixNormalizes()
    ensures Normalize("0x") == " " && Normalize(" 0x") == "  " && Normalize(",0x") == "  "
  {
    NoComma("0x");
    NoPair("0x", '\\');
    assert ReplacePair("0x", '0', 'x') == " ";
    NoComma(" 0x");
    NoPair(" 0x", '\\');
    ReplacePairConcat(" ", "0x", '0', 'x');
    assert " " + "0x" == " 0x";
    ReplaceCharConcat(",", "0x", ',');
    assert "," + "0x" == ",0x";
  }

  lemma BackslashNormalizes()
    ensures Normalize("\\x") == " "
  {
    NoComma("\\x");
    assert ReplacePair("\\x", '\\', 'x') == " ";
  }

  lemma SeparatorsNormalize()
    ensures Normalize("") == "" && Normalize(" ") == " " && Normalize(",") == " "
  {
    NoComma(" ");
    assert ReplaceChar(",", ',') == " " + ReplaceChar(","[1..], ',');
    assert ","[1..] == "";
  }

  /** What the three passes leave of a part. */
  lemma PartsNormalize(f: Form)
    ensures AllSpace(Normalize(FirstOf(f))) && AllSpace(Normalize(OtherOf(f)))
    ensures f != Compact ==> Normalize(OtherOf(f)) != ""
    ensures f == Compact ==> Normalize(FirstOf(f)) == Normalize(OtherOf(f)) == ""
  {
    match f
    case ZeroX => PrefixNormalizes();
    case ZeroXCommas => PrefixNormalizes();
    case BackslashX => BackslashNormalizes();
    case _ => SeparatorsNormalize();
  }

  lemma NormalizeWritten(f: Form, bytes: seq<u8>)
    ensures Normalize(Written(f, bytes)) == Text(Normalize(FirstOf(f)), Normalize(OtherOf(f)), bytes)
  {
    var a, b := ReplaceChar(FirstOf(f), ','), ReplaceChar(OtherOf(f), ',');
    CommaPass(FirstOf(f), OtherOf(f), bytes);
    assert b != "" ==> b[0] != 'x';
    PairPass(a, b, bytes, '\\');
    var c, d := ReplacePair(a, '\\', 'x'), ReplacePair(b, '\\', 'x');
    assert d != "" ==> d[0] != 'x';
    PairPass(c, d, bytes, '0');
  }

  // ----- splitting -----

  lemma {:induction false} SkipSpace(s: string, rest: string)
    requires AllSpace(s)
    ensures Split(s + rest) == Split(rest)
  {
    if s == "" {
      assert s + rest == rest;
    } else {
      assert (s + rest)[1..] == s[1..] + rest;
      SkipSpace(s[1..], rest);
    }
  }

  lemma {:induction false} WordPrefix(w: string, rest: string)
    requires forall i | 0 <= i < |w| :: !IsSpace(w[i])
    requires rest != "" ==> IsSpace(rest[0])
    ensures WordLength(w + rest) == |w|
  {
    if w == "" {
      assert w + rest == rest;
    } else {
      assert (w + rest)[1..] == w[1..] + rest;
      WordPrefix(w[1..], rest);
    }
  }

  lemma TakeWord(w: string, rest: string)
    requires w != "" && forall i | 0 <= i < |w| :: !IsSpace(w[i])
    requires rest != "" ==> IsSpace(rest[0])
    ensures Split(w + rest) == [w] + Split(rest)
  {
    WordPrefix(w, rest);
    assert (w + rest)[..|w|] == w && (w + rest)[|w|..] == rest;
  }

  function Tokens(bytes: seq<u8>): seq<string> {
    if bytes == [] then [] else [Hex2(bytes[0])] + Tokens(bytes[1..])
  }

  lemma {:induction false} SplitText(first: string, other: string, bytes: seq<u8>)
    requires AllSpace(first) && AllSpace(other) && other != ""
    ensures Split(Text(first, other, bytes)) == Tokens(bytes)
    decreases |bytes|
  {
    if bytes != [] {
      var h, rest := Hex2(bytes[0]), Text(other, other, bytes[1..]);
      DigitsPlain(bytes[0]);
      if rest != "" {
        TextStart(other, other, bytes[1..]);
      }
      assert first + h + rest == first + (h + rest);
      SkipSpace(first, h + rest);
      TakeWord(h, rest);
      SplitText(other, other, bytes[1..]);
    }
  }

  // ----- parsing tokens -----

  lemma ParseHex2(b: u8)
    ensures ParseInt(Hex2(b)) == Some(b)
  {
    var h := Hex2(b);
    DigitsPlain(b);
    assert HexDigit(h[0]) == Some(b / 16) && HexDigit(h[1]) == Some(b % 16);
    assert h[1..] == [h[1]] && h[1..][1..] == "";
    assert ParseDigits(h, 0, true) == ParseDigits(h[1..], b / 16, false);
    assert ParseDigits(h[1..], b / 16, false) == ParseDigits("", 16 * (b / 16) + b % 16, false);
    assert h[0] != '+' && h[0] != '-' && h[1] != 'X';
  }

  lemma {:induction false} ParseTokensOf(bytes: seq<u8>)
    ensures ParseTokens(Tokens(bytes)) == Bytes(bytes)
  {
    if bytes != [] {
      ParseHex2(bytes[0]);
      assert Tokens(bytes)[1..] == Tokens(bytes[1..]);
      ParseTokensOf(bytes[1..]);
    }
  }

  lemma {:induction false} CompactText(bytes: seq<u8>)
    ensures var s := Text("", "", bytes);
            |s| == 2 * |bytes| && Pairs(s) == Tokens(bytes) && forall i | 0 <= i < |s| :: !IsSpace(s[i])
  {
    if bytes != [] {
      CompactText(bytes[1..]);
      DigitsPlain(bytes[0]);
      var s, rest := Text("", "", bytes), Text("", "", bytes[1..]);
      assert s == Hex2(bytes[0]) + rest;
      assert s[..2] == Hex2(bytes[0]) && s[2..] == rest;
    }
  }

  lemma CompactParses(s: string, bytes: seq<u8>)
    requires |s| == 2 * |bytes| && Pairs(s) == Tokens(bytes)
    requires forall i | 0 <= i < |s| :: !IsSpace(s[i])
    ensures ParseSplit(Split(s)) == Bytes(bytes)
  {
    ParseTokensOf(bytes);
    if s != "" {
      SplitWord(s);
      OneToken(s, bytes);
    }
  }

  lemma SplitWord(s: string)
    requires s != "" && forall i | 0 <= i < |s| :: !IsSpace(s[i])
    ensures Split(s) == [s]
  {
    TakeWord(s, "");
    assert s + "" == s;
  }

  /** A single token is either one byte or compact hex. */
  lemma OneToken(s: string, bytes: seq<u8>)
    requires |s| % 2 == 0 && s != "" && Pairs(s) == Tokens(bytes)
    ensures ParseSplit([s]) == ParseTokens(Tokens(bytes))
  {
    hide ParseTokens, Tokens;
    if |s| == 2 {
      assert s[..2] == s && s[2..] == "";
      assert Pairs(s) == [s] + Pairs("") == [s];
    }
  }

  lemma TokensParse(bytes: seq<u8>)
    ensures ParseSplit(Tokens(bytes)) == Bytes(bytes)
  {
    ParseTokensOf(bytes);
  }

  /** Every written form of every byte string parses back to it. */
  lemma HexRoundTrip(f: Form, bytes: seq<u8>)
    ensures ParseProgramHex(Written(f, bytes)) == Bytes(bytes)
  {
    NormalizeWritten(f, bytes);
    PartsNormalize(f);
    if f == Compact {
      CompactText(bytes);
      CompactParses(Text("", "", bytes), bytes);
    } else {
      SplitText(Normalize(FirstOf(f)), Normalize(OtherOf(f)), bytes);
      TokensParse(bytes);
    }
  }

  const WHITE: seq<int> := [9, 10, 11, 12, 13, 28, 29, 30, 31, 32]

  predicate White(s: string) {
    forall i | 0 <= i < |s| :: s[i] as int in WHITE
  }

  lemma WhitePlain(s: string)
    requires White(s)
    ensures AllSpace(s) && Normalize(s) == s && (s != "" ==> s[0] != 'x')
    ensures ReplaceChar(s, ',') == s && ReplacePair(s, '\\', 'x') == s
  {
    NoComma(s);
    NoPair(s, '\\');
    NoPair(s, '0');
  }

  /** Bytes may be separated by any white space, runs and line ends included. */
  lemma AnyWhiteSpace(first: string, other: string, bytes: seq<u8>)
    requires White(first) && White(other) && other != ""
    ensures ParseProgramHex(Text(first, other, bytes)) == Bytes(bytes)
  {
    WhitePlain(first);
    WhitePlain(other);
    hide White, AllSpace, ReplaceChar, ReplacePair, Split, ParseSplit;
    CommaPass(first, other, bytes);
    PairPass(first, other, bytes, '\\');
    PairPass(first, other, bytes, '0');
    SplitText(first, other, bytes);
    TokensParse(bytes);
  }

  // ----- numerals -----

  /** The digits, in both cases. */
  lemma DigitsOfBothCases(c: char, d: nat)
    ensures HexDigit(c) == Some(d) <==> d < 16 && (c == "0123456789abcdef"[d] || c == "0123456789ABCDEF"[d])
  {
    assert d < 10 ==> "0123456789abcdef"[d] as int == 48 + d;
    assert 10 <= d < 16 ==> "0123456789abcdef"[d] as int == 87 + d && "0123456789ABCDEF"[d] as int == 55 + d;
  }

  /** Hex digits, with single underscores between them. */
  predicate Numeral(s: string) {
    && s != "" && s[|s| - 1] != '_'
    && forall i | 0 <= i < |s| :: HexDigit(s[i]).Some? || (s[i] == '_' && i > 0 && s[i - 1] != '_')
  }

  /** Positional, underscores left out. */
  function ValueOf(s: string): nat {
    if s == "" then 0
    else match HexDigit(s[|s| - 1])
      case Some(d) => 16 * ValueOf(s[..|s| - 1]) + d
      case None => ValueOf(s[..|s| - 1])
  }

  /** What has been read after the characters of `s`, and whether a digit has to follow. */
  function Scan(s: string): Option<(nat, bool)> {
    if s == "" then Some((0, true))
    else match Scan(s[..|s| - 1])
      case None => None
      case Some((acc, needDigit)) =>
        var c := s[|s| - 1];
        if c == '_' then if needDigit then None else Some((acc, true))
        else match HexDigit(c) case Some(d) => Some((16 * acc + d, false)) case None => None
  }

  lemma {:induction false} ScanThen(s: string, rest: string)
    ensures ParseDigits(s + rest, 0, true) ==
              match Scan(s) case None => None case Some((acc, needDigit)) => ParseDigits(rest, acc, needDigit)
  {
    if s == "" {
      assert s + rest == rest;
    } else {
      var last := s[|s| - 1];
      assert s + rest == s[..|s| - 1] + ([last] + rest);
      ScanThen(s[..|s| - 1], [last] + rest);
      assert ([last] + rest)[1..] == rest;
    }
  }

  lemma {:induction false} ScanReads(s: string)
    ensures Scan(s).Some? <==>
            forall i | 0 <= i < |s| :: HexDigit(s[i]).Some? || (s[i] == '_' && i > 0 && s[i - 1] != '_')
    ensures Scan(s).Some? ==> Scan(s).value.0 == ValueOf(s)
    ensures Scan(s).Some? ==> (Scan(s).value.1 <==> s == "" || s[|s| - 1] == '_')
  {
    if s != "" {
      var t := s[..|s| - 1];
      ScanReads(t);
      assert forall i | 0 <= i < |t| :: t[i] == s[i];
    }
  }

  /** `int(s, 16)` without sign or prefix reads exactly the numerals, each to its value. */
  lemma DigitsExactly(s: string, v: nat)
    ensures ParseDigits(s, 0, true) == Some(v) <==> Numeral(s) && v == ValueOf(s)
  {
    ScanThen(s, "");
    assert s + "" == s;
    ScanReads(s);
    hide Scan, ValueOf;
  }

  /** A numeral, behind a prefix that one underscore may follow. */
  function Bare(s: string): string {
    if |s| >= 2 && s[0] == '0' && (s[1] == 'x' || s[1] == 'X') then
      if |s| > 2 && s[2] == '_' then s[3..] else s[2..]
    else s
  }

  function Unsigned(s: string): string {
    if s != "" && (s[0] == '+' || s[0] == '-') then s[1..] else s
  }

  /** A token is a numeral with an optional sign and prefix; only a minus sign negates it. */
  lemma IntExactly(s: string, v: int)
    ensures ParseInt(s) == Some(v) <==>
            && Numeral(Bare(Unsigned(s)))
            && v == if s[0] == '-' then -(ValueOf(Bare(Unsigned(s))) as int) else ValueOf(Bare(Unsigned(s)))
  {
    var digits := Bare(Unsigned(s));
    DigitsExactly(digits, if v >= 0 then v else -v);
    DigitsExactly(digits, ValueOf(digits));
    assert ParseUnsigned(Unsigned(s)) == ParseDigits(digits, 0, true);
    hide ParseDigits, ValueOf, Numeral, Bare;
  }

  /** A list of tokens is a byte string exactly when each token is one of its bytes, in order. */
  lemma {:induction false} TokensExactly(tokens: seq<string>, bytes: seq<u8>)
    ensures ParseTokens(tokens) == Bytes(bytes) <==>
            |tokens| == |bytes| && forall i | 0 <= i < |tokens| :: ParseInt(tokens[i]) == Some(bytes[i])
    ensures ParseTokens(tokens) != OddDigits
  {
    hide ParseInt;
    if tokens != [] {
      var rest := tokens[1..];
      if bytes != [] {
        TokensExactly(rest, bytes[1..]);
        assert bytes == [bytes[0]] + bytes[1..];
      }
      if ParseTokens(rest).Bytes? {
        TokensExactly(rest, ParseTokens(rest).bytes);
      } else {
        TokensExactly(rest, []);
      }
    }
  }

  /** The one-token refusal. */
  lemma OddExactly(tokens: seq<string>)
    ensures ParseSplit(tokens) == OddDigits <==> |tokens| == 1 && |tokens[0]| > 2 && |tokens[0]| % 2 == 1
  {
    TokensExactly(tokens, []);
    if |tokens| == 1 && |tokens[0]| % 2 == 0 {
      TokensExactly(Pairs(tokens[0]), []);
    }
  }
}
