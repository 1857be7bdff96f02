/**
 The text the object emitter writes, and what is read back from it: the items an assembler
 sees, the code a lookup of a name leads to, and the program bytes in the source comment.
 */
module AsmText {
  import opened Words
  import opened Ebpf
  import H = HexText
  import M = Morello
  import O = ObjEmit

  // ----- decimal numbers -----

  function Decimal(n: nat): (s: string)
    ensures s != ""
  {
    var last := ['0' + (n % 10) as char];
    if n < 10 then last else Decimal(n / 10) + last
  }

  function DecimalDigit(c: char): Option<nat> {
    if '0' <= c <= '9' then Some(c as int - '0' as int) else None
  }

  function ParseDecimal(s: string): Option<nat> {
    if s == "" then None
    else match DecimalDigit(s[|s| - 1])
      case None => None
      case Some(d) =>
        if |s| == 1 then Some(d)
        else match ParseDecimal(s[..|s| - 1])
          case None => None
          case Some(high) => Some(10 * high + d)
  }

  lemma {:induction false} DecimalRoundTrip(n: nat)
    ensures ParseDecimal(Decimal(n)) == Some(n)
    ensures '\n' !in Decimal(n)
  {
    var s := Decimal(n);
    assert DecimalDigit(s[|s| - 1]) == Some(n % 10);
    if n >= 10 {
      DecimalRoundTrip(n / 10);
      assert s[..|s| - 1] == Decimal(n / 10);
    }
  }

  // ----- lines -----

  function Unlines(lines: seq<string>): string {
    if lines == [] then "" else lines[0] + "\n" + Unlines(lines[1..])
  }

  /** Length up to the first `c`. */
  function UpTo(s: string, c: char): (n: nat)
    ensures n <= |s|
  {
    if s == "" || s[0] == c then 0 else 1 + UpTo(s[1..], c)
  }

  /** The newline-terminated lines of a text. */
  function Lines(s: string): seq<string>
    decreases |s|
  {
    if s == "" then []
    else if UpTo(s, '\n') == |s| then [s]
    else [s[..UpTo(s, '\n')]] + Lines(s[UpTo(s, '\n') + 1..])
  }

  predicate NoNewlines(lines: seq<string>) {
    forall i | 0 <= i < |lines| :: '\n' !in lines[i]
  }

  lemma {:induction false} UpToFirst(before: string, c: char, rest: string)
    requires c !in before
    ensures UpTo(before + [c] + rest, c) == |before|
  {
    var s := before + [c] + rest;
    if before != "" {
      assert s[1..] == before[1..] + [c] + rest;
      UpToFirst(before[1..], c, rest);
    }
  }

  lemma {:induction false} LinesOfUnlines(lines: seq<string>)
    requires NoNewlines(lines)
    ensures Lines(Unlines(lines)) == lines
  {
    if lines != [] {
      var rest := Unlines(lines[1..]);
      UpToFirst(lines[0], '\n', rest);
      var s := lines[0] + "\n" + rest;
      assert s[..|lines[0]|] == lines[0] && s[|lines[0]| + 1..] == rest;
      LinesOfUnlines(lines[1..]);
    }
  }

  // ----- the emitter's text -----

  /** ASCII letters, digits and underscores, not starting with a digit. */
  predicate ValidSymbol(symbol: string) {
    && symbol != "" && !('0' <= symbol[0] <= '9')
    && forall i | 0 <= i < |symbol| ::
         var c := symbol[i]; c == '_' || 'a' <= c <= 'z' || 'A' <= c <= 'Z' || '0' <= c <= '9'
  }

  predicate IsAlnum(c: char) {
    'a' <= c <= 'z' || 'A' <= c <= 'Z' || '0' <= c <= '9'
  }

  /** `s.replace("_", "a")`. */
  function WithoutUnderscores(s: string): string {
    if s == "" then "" else [if s[0] == '_' then 'a' else s[0]] + WithoutUnderscores(s[1..])
  }

  /** `s.isalnum()`: some character, and every one a letter or digit. */
  predicate AllAlnum(s: string) {
    s != "" && forall i | 0 <= i < |s| :: IsAlnum(s[i])
  }

  /** The test the emitter makes. */
  predicate SymbolTest(symbol: string) {
    AllAlnum(WithoutUnderscores(symbol)) && !('0' <= symbol[0] <= '9')
  }

  lemma {:induction false} UnderscoresReplaced(s: string)
    ensures |WithoutUnderscores(s)| == |s|
    ensures forall i | 0 <= i < |s| :: WithoutUnderscores(s)[i] == if s[i] == '_' then 'a' else s[i]
  {
    if s != "" {
      UnderscoresReplaced(s[1..]);
    }
  }

  lemma TestIsValid(symbol: string)
    ensures SymbolTest(symbol) <==> ValidSymbol(symbol)
  {
    UnderscoresReplaced(symbol);
  }

  function SourceComment(program: seq<u8>): string {
    "eBPF bytes " + H.Written(H.Spaced, program)
  }

  const SOURCE_HEAD := " * Source: eBPF bytes "

  function LoadLine(offset: nat): string {
    "\tldr x0, [c0, #" + Decimal(offset) + "]"
  }

  /** The text, line by line: what names the symbol, then the code. */
  function Header(symbol: string, comment: string): seq<string> {
    ["/* Generated by tools/cheri_objjit_emit.py.",
     " * Source: " + comment,
     " */",
     ".text",
     ".p2align 4",
     ".globl " + symbol,
     ".type " + symbol + ",@function",
     symbol + ":"]
  }

  function Body(symbol: string, offset: nat): seq<string> {
    [LoadLine(offset), "\tret c30", ".size " + symbol + ", .-" + symbol]
  }

  function EmitLines(symbol: string, offset: nat, comment: string): seq<string> {
    Header(symbol, comment) + Body(symbol, offset)
  }

  function EmitText(symbol: string, offset: nat, comment: string): string {
    Unlines(EmitLines(symbol, offset, comment))
  }

  datatype Emitted = Assembly(text: string) | BadSymbol | Refused(failure: O.Failure)

  /** What the emitter writes for a symbol and the bytes of a program, or why it stops. */
  function EmitObject(symbol: string, program: seq<u8>): Emitted {
    if !SymbolTest(symbol) then BadSymbol
    else match O.Emit(program)
      case Err(e) => Refused(e)
      case Ok(offset) => Assembly(EmitText(symbol, offset, SourceComment(program)))
  }

  // ----- reading it back -----

  function ReadReg(s: string): Option<M.CReg> {
    match ParseDecimal(s)
    case Some(n) => if n < M.CREGS then Some(n) else None
    case None => None
  }

  /** `, #I]`: the immediate is scaled by 8 into 12 bits. */
  function ReadOffset(s: string): Option<nat> {
    if !(", #" <= s) || s[|s| - 1] != ']' then None
    else match ParseDecimal(s[3..|s| - 1])
      case Some(n) => if n % 8 == 0 && n / 8 < 0x1000 then Some(n) else None
      case None => None
  }

  /** `M, #I]`. */
  function ReadBase(s: string): Option<(M.CReg, nat)> {
    var n := UpTo(s, ',');
    match (ReadReg(s[..n]), ReadOffset(s[n..]))
    case (Some(r), Some(i)) => Some((r, i))
    case _ => None
  }

  /** `N, [cM, #I]`. */
  function ReadLoad(s: string): Option<M.A64> {
    var n := UpTo(s, ',');
    if !(", [c" <= s[n..]) then None
    else match (ReadReg(s[..n]), ReadBase(s[n + 4..]))
      case (Some(t), Some((b, i))) => Some(M.Ldr(t, b, i))
      case _ => None
  }

  /** One instruction line. */
  function Instruction(line: string): Option<M.A64> {
    if "\tret c" <= line then
      match ReadReg(line[6..]) case Some(r) => Some(M.Ret(r)) case None => None
    else if "\tldr x" <= line then ReadLoad(line[6..])
    else None
  }

  /** What an assembler sees in a line. */
  datatype Item =
    | Comment
    | Directive(name: string, args: string)
    | Label(name: string)
    | Code(op: Option<M.A64>)
    | Other

  function ReadDirective(s: string): Item {
    var n := UpTo(s, ' ');
    Directive(s[..n], if n == |s| then "" else s[n + 1..])
  }

  function ReadLine(line: string): Item {
    if line == "" then Other
    else if line[0] == '\t' then Code(Instruction(line))
    else if line[0] == '.' then ReadDirective(line[1..])
    else if line[0] == '/' || line[0] == ' ' then Comment
    else if line[|line| - 1] == ':' then Label(line[..|line| - 1])
    else Other
  }

  function Items(text: string): seq<Item> {
    var lines := Lines(text);
    seq(|lines|, i requires 0 <= i < |lines| => ReadLine(lines[i]))
  }

  function CodeOf(items: seq<Item>): seq<Option<M.A64>> {
    if items == [] then []
    else (if items[0].Code? then [items[0].op] else []) + CodeOf(items[1..])
  }

  function AfterLabel(items: seq<Item>, name: string): Option<seq<Item>> {
    if items == [] then None
    else if items[0] == Label(name) then Some(items[1..])
    else AfterLabel(items[1..], name)
  }

  predicate Exported(items: seq<Item>, name: string) {
    Directive("globl", name) in items && Directive("type", name + ",@function") in items
  }

  /** The code a lookup of `name` leads to: what follows its label, if it is an exported function. */
  function Linked(text: string, name: string): Option<seq<Option<M.A64>>> {
    var items := Items(text);
    if !Exported(items, name) then None
    else match AfterLabel(items, name) case None => None case Some(rest) => Some(CodeOf(rest))
  }

  /** The bytes in the source comment, if there is one. */
  function SourceBytes(lines: seq<string>): Option<H.Parsed> {
    if lines == [] then None
    else if SOURCE_HEAD <= lines[0] then Some(H.ParseProgramHex(lines[0][|SOURCE_HEAD|..]))
    else SourceBytes(lines[1..])
  }

  // ----- it comes back -----

  lemma {:induction false} HexPlain(first: string, other: string, bytes: seq<u8>)
    requires '\n' !in first && '\n' !in other
    ensures '\n' !in H.Text(first, other, bytes)
    decreases |bytes|
  {
    if bytes != [] {
      HexPlain(other, other, bytes[1..]);
    }
  }

  lemma HeaderPlain(symbol: string, comment: string)
    requires ValidSymbol(symbol) && '\n' !in comment
    ensures NoNewlines(Header(symbol, comment))
  {
    assert '\n' !in symbol;
    hide ValidSymbol;
  }

  lemma BodyPlain(symbol: string, offset: nat)
    requires ValidSymbol(symbol)
    ensures NoNewlines(Body(symbol, offset))
  {
    DecimalRoundTrip(offset);
    assert '\n' !in symbol;
    hide ValidSymbol;
  }

  lemma EmittedLines(symbol: string, offset: nat, comment: string)
    requires ValidSymbol(symbol) && '\n' !in comment
    ensures Lines(EmitText(symbol, offset, comment)) == EmitLines(symbol, offset, comment)
  {
    HeaderPlain(symbol, comment);
    BodyPlain(symbol, offset);
    hide Header, Body, Lines, Unlines;
    LinesOfUnlines(EmitLines(symbol, offset, comment));
  }

  lemma Zero()
    ensures ReadReg("0") == Some(0)
  {
  }

  lemma OffsetReads(number: string, offset: nat)
    requires ParseDecimal(number) == Some(offset) && offset % 8 == 0 && offset < 0x8000
    ensures ReadOffset(", #" + number + "]") == Some(offset)
  {
    hide ParseDecimal;
    var s := ", #" + number + "]";
    assert s[3..|s| - 1] == number;
  }

  lemma BaseReads(number: string, offset: nat)
    requires ParseDecimal(number) == Some(offset) && offset % 8 == 0 && offset < 0x8000
    ensures ReadBase("0, #" + number + "]") == Some((0, offset))
  {
    hide UpTo, ParseDecimal, ReadReg, ReadOffset;
    var s, tail := "0, #" + number + "]", ", #" + number + "]";
    Zero();
    OffsetReads(number, offset);
    assert s == "0," + (" #" + number + "]");
    FieldEnds(s, " #" + number + "]");
    assert s[..1] == "0" && s[1..] == tail;
  }

  lemma LoadOperands(number: string, offset: nat)
    requires ParseDecimal(number) == Some(offset) && offset % 8 == 0 && offset < 0x8000
    ensures ReadLoad("0, [c0, #" + number + "]") == Some(M.Ldr(0, 0, offset))
  {
    hide UpTo, ParseDecimal, ReadReg, ReadBase;
    var s, base := "0, [c0, #" + number + "]", "0, #" + number + "]";
    Zero();
    BaseReads(number, offset);
    assert s == "0," + (" [c" + base);
    FieldEnds(s, " [c" + base);
    assert s[1..] == ", [c" + base && s[5..] == base && s[..1] == "0";
  }

  lemma FieldEnds(s: string, rest: string)
    requires s == "0," + rest
    ensures UpTo(s, ',') == 1
  {
    assert s == "0" + [','] + rest;
    UpToFirst("0", ',', rest);
  }

  lemma LoadLineReads(offset: nat)
    requires offset % 8 == 0 && offset < 0x8000
    ensures LoadLine(offset) != "" && LoadLine(offset)[0] == '\t'
    ensures Instruction(LoadLine(offset)) == Some(M.Ldr(0, 0, offset))
  {
    hide ReadLoad, Decimal, ParseDecimal;
    DecimalRoundTrip(offset);
    LoadOperands(Decimal(offset), offset);
    var line := LoadLine(offset);
    assert line == "\tldr x" + ("0, [c0, #" + Decimal(offset) + "]");
    assert line[1] == 'l';
  }

  lemma ReturnReads()
    ensures Instruction("\tret c30") == Some(M.Ret(30))
  {
    var line := "\tret c30";
    assert line[6..] == "30" && "30"[..1] == "3";
    assert ParseDecimal("3") == Some(3) && ParseDecimal("30") == Some(30);
  }

  lemma DirectiveReads(name: string, args: string)
    requires ' ' !in name
    ensures ReadLine("." + name + " " + args) == Directive(name, args)
  {
    UpToFirst(name, ' ', args);
    var line := "." + name + " " + args;
    assert line[1..] == name + [' '] + args;
    assert line[1..][..|name|] == name && line[1..][|name| + 1..] == args;
  }

  /** What an assembler sees of the object: two instructions behind one label. */
  function Object(symbol: string, offset: nat): seq<Item> {
    [Comment, Comment, Comment,
     Directive("text", ""), Directive("p2align", "4"), Directive("globl", symbol),
     Directive("type", symbol + ",@function"), Label(symbol),
     Code(Some(M.Ldr(0, 0, offset))), Code(Some(M.Ret(30))),
     Directive("size", symbol + ", .-" + symbol)]
  }

  lemma LabelReads(symbol: string)
    requires ValidSymbol(symbol)
    ensures ReadLine(symbol + ":") == Label(symbol)
  {
    var line := symbol + ":";
    assert line[0] == symbol[0] && line[|line| - 1] == ':' && line[..|line| - 1] == symbol;
  }

  lemma CommentRead(line: string)
    requires line != "" && (line[0] == '/' || line[0] == ' ')
    ensures ReadLine(line) == Comment
  {
  }

  lemma CommentsRead(symbol: string, comment: string, i: nat)
    requires i < 3
    ensures ReadLine(Header(symbol, comment)[i]) == Comment
  {
    hide ReadLine;
    assert " * Source: "[0] == ' ';
    CommentRead(Header(symbol, comment)[i]);
  }

  lemma HeaderReads(symbol: string, comment: string, i: nat)
    requires ValidSymbol(symbol) && i < 8
    ensures ReadLine(Header(symbol, comment)[i]) == Object(symbol, 0)[i]
  {
    hide ReadLine, ValidSymbol;
    var lines := Header(symbol, comment);
    match i
    case 3 => TextDirective();
    case 4 => DirectiveReads("p2align", "4"); assert lines[4] == "." + "p2align" + " " + "4";
    case 5 => DirectiveReads("globl", symbol); assert lines[5] == "." + "globl" + " " + symbol;
    case 6 =>
      DirectiveReads("type", symbol + ",@function");
      assert lines[6] == "." + "type" + " " + (symbol + ",@function");
    case 7 => LabelReads(symbol);
    case _ => CommentsRead(symbol, comment, i);
  }

  lemma TextDirective()
    ensures ReadLine(".text") == Directive("text", "")
  {
    var s := "text";
    assert ".text"[1..] == s;
    assert UpTo(s[4..], ' ') == 0 && UpTo(s[3..], ' ') == 1 && UpTo(s[2..], ' ') == 2 && UpTo(s[1..], ' ') == 3;
  }

  lemma BodyReads(symbol: string, offset: nat, i: nat)
    requires offset % 8 == 0 && offset < 0x8000 && i < 3
    ensures ReadLine(Body(symbol, offset)[i]) == Object(symbol, offset)[8 + i]
  {
    hide ReadLine, Instruction, LoadLine;
    assert "\tret c30"[0] == '\t';
    var line := Body(symbol, offset)[i];
    match i
    case 0 => LoadLineReads(offset); TabReads(line);
    case 1 => ReturnReads(); TabReads(line);
    case _ =>
      DirectiveReads("size", symbol + ", .-" + symbol);
      assert line == "." + "size" + " " + (symbol + ", .-" + symbol);
  }

  lemma TabReads(line: string)
    requires line != "" && line[0] == '\t'
    ensures ReadLine(line) == Code(Instruction(line))
  {
    hide Instruction;
  }

  /** An assembler sees exactly that object in the text. */
  lemma TextReads(symbol: string, offset: nat, comment: string)
    requires ValidSymbol(symbol) && '\n' !in comment && offset % 8 == 0 && offset < 0x8000
    ensures Items(EmitText(symbol, offset, comment)) == Object(symbol, offset)
  {
    hide ReadLine, EmitText, ValidSymbol, Lines;
    EmittedLines(symbol, offset, comment);
    forall i | 0 <= i < 11
      ensures ReadLine(EmitLines(symbol, offset, comment)[i]) == Object(symbol, offset)[i]
    {
      if i < 8 {
        HeaderReads(symbol, comment, i);
      } else {
        BodyReads(symbol, offset, i - 8);
      }
    }
  }

  /** A lookup finds the symbol that was asked for and no other, and behind it the load and the return. */
  lemma TextLinks(symbol: string, offset: nat, comment: string, name: string)
    requires ValidSymbol(symbol) && '\n' !in comment && offset % 8 == 0 && offset < 0x8000
    ensures Linked(EmitText(symbol, offset, comment), name)
         == if name == symbol then Some([Some(M.Ldr(0, 0, offset)), Some(M.Ret(30))]) else None
  {
    hide EmitText, Items, ValidSymbol, Object, CodeOf, AfterLabel, Exported;
    TextReads(symbol, offset, comment);
    var items := Object(symbol, offset);
    ObjectExports(symbol, offset, name);
    if name == symbol {
      ObjectLabel(symbol, offset);
      ObjectCode(items[8..], offset);
    }
  }

  lemma ObjectExports(symbol: string, offset: nat, name: string)
    ensures Exported(Object(symbol, offset), name) <==> name == symbol
  {
    var items := Object(symbol, offset);
    assert items[5] == Directive("globl", symbol) && items[6] == Directive("type", symbol + ",@function");
    forall i | 0 <= i < |items| && items[i] == Directive("globl", name)
      ensures i == 5
    {
    }
  }

  lemma ObjectLabel(symbol: string, offset: nat)
    ensures var items := Object(symbol, offset);
            && |items| == 11 && AfterLabel(items, symbol) == Some(items[8..]) && !items[10].Code?
            && items[8] == Code(Some(M.Ldr(0, 0, offset))) && items[9] == Code(Some(M.Ret(30)))
  {
    LabelSkipped(Object(symbol, offset), symbol, 7);
    hide AfterLabel;
  }

  lemma {:induction false} LabelSkipped(items: seq<Item>, name: string, n: nat)
    requires n < |items| && items[n] == Label(name) && forall i | 0 <= i < n :: !items[i].Label?
    ensures AfterLabel(items, name) == Some(items[n + 1..])
  {
    if n > 0 {
      LabelSkipped(items[1..], name, n - 1);
      assert items[1..][n..] == items[n + 1..];
    }
  }

  lemma ObjectCode(items: seq<Item>, offset: nat)
    requires |items| == 3 && items[0] == Code(Some(M.Ldr(0, 0, offset))) && items[1] == Code(Some(M.Ret(30)))
    requires !items[2].Code?
    ensures CodeOf(items) == [Some(M.Ldr(0, 0, offset)), Some(M.Ret(30))]
  {
    assert CodeOf(items[1..][1..]) == [] by {
      assert CodeOf(items[1..][1..][1..]) == [];
    }
    assert CodeOf(items[1..]) == [Some(M.Ret(30))] + CodeOf(items[1..][1..]);
  }

  lemma CommentPlain(program: seq<u8>)
    ensures '\n' !in SourceComment(program)
  {
    HexPlain("", " ", program);
  }

  lemma CommentLine(symbol: string, offset: nat, program: seq<u8>)
    ensures var lines := EmitLines(symbol, offset, SourceComment(program));
            && |lines| > 1 && lines[0] != "" && lines[0][0] != ' '
            && lines[1] == SOURCE_HEAD + H.Written(H.Spaced, program)
  {
    hide H.Written;
    assert Header(symbol, SourceComment(program))[0][0] == '/';
    assert " * Source: " + "eBPF bytes " == SOURCE_HEAD;
  }

  /** The program bytes come back from the comment, for every program. */
  lemma CommentReads(symbol: string, offset: nat, program: seq<u8>)
    requires ValidSymbol(symbol)
    ensures SourceBytes(Lines(EmitText(symbol, offset, SourceComment(program)))) == Some(H.Bytes(program))
  {
    hide *;
    CommentPlain(program);
    EmittedLines(symbol, offset, SourceComment(program));
    H.HexRoundTrip(H.Spaced, program);
    CommentLine(symbol, offset, program);
    SourceLine(EmitLines(symbol, offset, SourceComment(program)), H.Written(H.Spaced, program));
  }

  lemma SourceLine(lines: seq<string>, hex: string)
    requires |lines| > 1 && lines[0] != "" && lines[0][0] != ' ' && lines[1] == SOURCE_HEAD + hex
    ensures SourceBytes(lines) == Some(H.ParseProgramHex(hex))
  {
    hide H.ParseProgramHex;
    assert SOURCE_HEAD[0] == ' ';
    assert lines[1][|SOURCE_HEAD|..] == hex;
    assert SourceBytes(lines) == SourceBytes(lines[1..]);
  }

  /**
   The text says what it was made from: the symbol is the one name that can be looked up, its code
   carries the offset of the program, and the comment carries the program itself.
   */
  lemma TextReadsBack(symbol: string, program: seq<u8>, text: string, name: string)
    requires EmitObject(symbol, program) == Assembly(text)
    ensures exists offset: nat :: && O.Emit(program) == O.Ok(offset) && Items(text) == Object(symbol, offset)
                                  && Linked(text, name) == if name == symbol
                                       then Some([Some(M.Ldr(0, 0, offset)), Some(M.Ret(30))]) else None
    ensures SourceBytes(Lines(text)) == Some(H.Bytes(program))
  {
    hide EmitText, SourceBytes, Items, Object, Linked, H.Written, O.Emit, SymbolTest, ValidSymbol;
    TestIsValid(symbol);
    var offset: nat := O.Emit(program).value;
    O.EmitsExactly(program, offset);
    CommentPlain(program);
    TextReads(symbol, offset, SourceComment(program));
    TextLinks(symbol, offset, SourceComment(program), name);
    CommentReads(symbol, offset, program);
  }

  /** Different symbols or programs never give the same text. */
  lemma TextInjective(symbol: string, other: string, program: seq<u8>, program': seq<u8>, text: string)
    requires EmitObject(symbol, program) == Assembly(text) == EmitObject(other, program')
    ensures symbol == other && program == program'
  {
    hide EmitObject, Items, Linked, O.Emit;
    TextReadsBack(symbol, program, text, symbol);
    TextReadsBack(other, program', text, symbol);
  }

  /** When the emitter stops, and for which of the two reasons. */
  lemma EmitsObjectExactly(symbol: string, program: seq<u8>)
    ensures EmitObject(symbol, program) == BadSymbol <==> !ValidSymbol(symbol)
    ensures forall e ::
              EmitObject(symbol, program) == Refused(e) <==> ValidSymbol(symbol) && O.Emit(program) == O.Err(e)
    ensures EmitObject(symbol, program).Assembly? <==> ValidSymbol(symbol) && O.Emit(program).Ok?
  {
    TestIsValid(symbol);
    hide SymbolTest, ValidSymbol, O.Emit, EmitText;
  }

  /** The default symbol never stops it. */
  lemma DefaultSymbol(program: seq<u8>)
    ensures EmitObject("bpf_entry", program).Assembly? <==> O.Emit(program).Ok?
  {
    EmitsObjectExactly("bpf_entry", program);
    hide EmitObject;
  }
}
