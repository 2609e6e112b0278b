/**
 The format strings of pfunc_pack and pfunc_unpack (lib/pfunc_pack.cpp): the accepted language, and the hand-written
 scanner that turns a format into tokens.
 */
module PackFormat {
  import opened Common

  datatype Token =
    | INT | UINT | LINT | INTP | UINTP | LINTP | INTPP | UINTPP | LINTPP
    | CHRP | UCHRP | CHRPP | UCHRPP | FLTP | FLTPP | DBL | DBLP | DBLPP | VOIDP

  /** The words a format item can start with. */
  datatype Kind = Int | UnsignedInt | LongInt | Char | UnsignedChar | Double | Float | Void

  /** The sizes of the C types on the machine at hand. */
  datatype Abi = Abi(int_: nat, long_: nat, double_: nat, pointer: nat)

  function SizeOf(abi: Abi, t: Token): nat {
    match t
    case INT => abi.int_
    case UINT => abi.int_
    case LINT => abi.long_
    case DBL => abi.double_
    case _ => abi.pointer
  }

  function BufferSize(abi: Abi, ts: seq<Token>): nat {
    if ts == [] then 0 else SizeOf(abi, ts[0]) + BufferSize(abi, ts[1..])
  }

  /** What the scanner pushes for a word followed by `stars` stars; plain and unsigned characters are not told apart. */
  function TokenFor(kind: Kind, stars: nat): Option<Token> {
    match kind
    case Int =>
      if stars == 0 then Some(INT) else if stars == 1 then Some(INTP) else if stars == 2 then Some(INTPP) else None
    case UnsignedInt =>
      if stars == 0 then Some(UINT) else if stars == 1 then Some(UINTP) else if stars == 2 then Some(UINTPP) else None
    case LongInt =>
      if stars == 0 then Some(LINT) else if stars == 1 then Some(LINTP) else if stars == 2 then Some(LINTPP) else None
    case Char => if stars == 1 then Some(UCHRP) else if stars == 2 then Some(UCHRPP) else None
    case UnsignedChar => if stars == 1 then Some(UCHRP) else if stars == 2 then Some(UCHRPP) else None
    case Double =>
      if stars == 0 then Some(DBL) else if stars == 1 then Some(DBLP) else if stars == 2 then Some(DBLPP) else None
    case Float => if stars == 1 then Some(FLTP) else if stars == 2 then Some(FLTPP) else None
    case Void => if stars == 1 then Some(VOIDP) else None
  }

  // ---------------------------------------------------------------- the scanner as a function of the remaining text

  function DropSpaces(t: string): (r: string)
    ensures |r| <= |t|
  {
    if t != "" && t[0] == ' ' then DropSpaces(t[1..]) else t
  }

  /** `get_star_count`: stars up to the next comma or the end, and the text from there on. */
  function Stars(t: string): (r: Option<(nat, string)>)
    ensures r.Some? ==> |r.value.1| <= |t|
  {
    if t == "" || t[0] == ',' then Some((0, t))
    else if t[0] == ' ' then Stars(t[1..])
    else if t[0] == '*' then
      match Stars(t[1..]) case Some((n, rest)) => Some((n + 1, rest)) case None => None
    else None
  }

  function Strip(word: string, t: string): Option<string> {
    if word <= t then Some(t[|word|..]) else None
  }

  function Attach(kind: Kind, rest: Option<string>): Option<(Kind, string)> {
    match rest case Some(t) => Some((kind, t)) case None => None
  }

  /** The word at the front of `t`, chosen by its first letter. */
  function Keyword(t: string): Option<(Kind, string)> {
    if t == "" then None
    else
      match t[0]
      case 'i' => Attach(Int, Strip("int", t))
      case 'c' => Attach(Char, Strip("char", t))
      case 'd' => Attach(Double, Strip("double", t))
      case 'v' => Attach(Void, Strip("void", t))
      case 'f' => Attach(Float, Strip("float", t))
      case 'u' =>
        (match Strip("unsigned ", t)
         case Some(r) =>
           var w := DropSpaces(r);
           if w != "" && w[0] == 'i' then Attach(UnsignedInt, Strip("int", w))
           else if w != "" && w[0] == 'c' then Attach(UnsignedChar, Strip("char", w))
           else None
         case None => None)
      case 'l' =>
        (match Strip("long ", t)
         case Some(r) =>
           var w := DropSpaces(r);
           if w != "" && w[0] == 'i' then Attach(LongInt, Strip("int", w)) else None
         case None => None)
      case _ => None
  }

  lemma KeywordShrinks(t: string)
    ensures Keyword(t).Some? ==> |Keyword(t).value.1| < |t|
  {
  }

  function SkipComma(t: string): string {
    if t != "" && t[0] == ',' then t[1..] else t
  }

  /** One turn of the scanner's main loop. */
  function ParseOne(t: string): (r: Option<(Token, string)>)
    ensures r.Some? ==> |r.value.1| < |t|
  {
    var w := DropSpaces(t);
    KeywordShrinks(w);
    match Keyword(w)
    case None => None
    case Some((kind, u)) =>
      match Stars(u)
      case None => None
      case Some((n, rest)) =>
        match TokenFor(kind, n)
        case None => None
        case Some(tok) => Some((tok, SkipComma(rest)))
  }

  function Parse(t: string): Option<seq<Token>>
    decreases |t|
  {
    if t == "" then Some([])
    else
      match ParseOne(t)
      case None => None
      case Some((tok, rest)) =>
        match Parse(rest) case Some(ts) => Some([tok] + ts) case None => None
  }

  // ---------------------------------------------------------------- the language

  /** How one item is written: the word, the spaces before it and inside it, and the text between word and comma. */
  datatype Item = Item(kind: Kind, lead: nat, gap: nat, tail: string)

  function Spaces(n: nat): string {
    if n == 0 then "" else " " + Spaces(n - 1)
  }

  function Word(kind: Kind, gap: nat): string {
    match kind
    case Int => "int"
    case Char => "char"
    case Double => "double"
    case Float => "float"
    case Void => "void"
    case UnsignedInt => "unsigned " + Spaces(gap) + "int"
    case UnsignedChar => "unsigned " + Spaces(gap) + "char"
    case LongInt => "long " + Spaces(gap) + "int"
  }

  predicate StarText(tail: string) {
    forall i :: 0 <= i < |tail| ==> tail[i] == ' ' || tail[i] == '*'
  }

  function StarCount(tail: string): nat {
    if tail == "" then 0 else (if tail[0] == '*' then 1 else 0) + StarCount(tail[1..])
  }

  function ItemToken(x: Item): Option<Token> {
    TokenFor(x.kind, StarCount(x.tail))
  }

  predicate WellFormed(items: seq<Item>) {
    forall i :: 0 <= i < |items| ==> StarText(items[i].tail) && ItemToken(items[i]).Some?
  }

  function Write(x: Item): string {
    Spaces(x.lead) + Word(x.kind, x.gap) + x.tail
  }

  /** Items separated by commas; the last one may be followed by one more comma. */
  function Render(items: seq<Item>, comma: bool): string {
    if items == [] then ""
    else if |items| == 1 then Write(items[0]) + (if comma then "," else "")
    else Write(items[0]) + "," + Render(items[1..], comma)
  }

  function Tokens(items: seq<Item>): seq<Token>
    requires WellFormed(items)
  {
    if items == [] then [] else [ItemToken(items[0]).value] + Tokens(items[1..])
  }

  // ---------------------------------------------------------------- reading what was written

  /** Text that can follow an item: nothing, or a comma and more. */
  predicate Boundary(t: string) {
    t == "" || t[0] == ','
  }

  lemma {:induction false} DropWrittenSpaces(n: nat, t: string)
    requires t == "" || t[0] != ' '
    ensures DropSpaces(Spaces(n) + t) == t
  {
    if n == 0 {
      assert Spaces(0) + t == t;
    } else {
      DropWrittenSpaces(n - 1, t);
      assert (Spaces(n) + t)[1..] == Spaces(n - 1) + t;
    }
  }

  lemma {:induction false} ReadStars(tail: string, t: string)
    requires StarText(tail) && Boundary(t)
    ensures Stars(tail + t) == Some((StarCount(tail), t))
  {
    if tail == "" {
      assert tail + t == t;
    } else {
      ReadStars(tail[1..], t);
      assert (tail + t)[1..] == tail[1..] + t;
    }
  }

  lemma ReadPlainWord(kind: Kind, t: string)
    requires kind.Int? || kind.Char? || kind.Double? || kind.Float? || kind.Void?
    ensures var w := Word(kind, 0);
            && Keyword(w + t) == Some((kind, t))
            && w != "" && w[0] != ' '
  {
    var w := Word(kind, 0);
    assert w <= w + t && (w + t)[|w|..] == t && (w + t)[0] == w[0];
  }

  lemma ReadLongWord(kind: Kind, gap: nat, t: string)
    requires kind.UnsignedInt? || kind.UnsignedChar? || kind.LongInt?
    ensures Keyword(Word(kind, gap) + t) == Some((kind, t))
    ensures Word(kind, gap)[0] != ' '
  {
    var first := if kind.LongInt? then "long " else "unsigned ";
    var last := if kind.UnsignedChar? then "char" else "int";
    var middle := Spaces(gap) + (last + t);
    assert Word(kind, gap) + t == first + middle;
    StripWritten(first, middle);
    DropWrittenSpaces(gap, last + t);
    StripWritten(last, t);
  }

  lemma StripWritten(word: string, t: string)
    requires word != ""
    ensures Strip(word, word + t) == Some(t) && (word + t)[0] == word[0]
  {
    assert word <= word + t && (word + t)[|word|..] == t;
  }

  lemma ReadWord(kind: Kind, gap: nat, t: string)
    ensures Keyword(Word(kind, gap) + t) == Some((kind, t))
    ensures Word(kind, gap) != "" && Word(kind, gap)[0] != ' '
  {
    if kind.UnsignedInt? || kind.UnsignedChar? || kind.LongInt? {
      ReadLongWord(kind, gap, t);
    } else {
      ReadPlainWord(kind, t);
    }
  }

  lemma ReadItem(x: Item, t: string)
    requires StarText(x.tail) && ItemToken(x).Some? && Boundary(t)
    ensures ParseOne(Write(x) + t) == Some((ItemToken(x).value, SkipComma(t)))
  {
    var w := Word(x.kind, x.gap);
    Joined(x.lead, w, x.tail, t);
    ReadWord(x.kind, x.gap, x.tail + t);
    DropWrittenSpaces(x.lead, w + (x.tail + t));
    ReadStars(x.tail, t);
  }

  lemma Joined(lead: nat, word: string, tail: string, rest: string)
    ensures Spaces(lead) + (word + (tail + rest)) == Spaces(lead) + word + tail + rest
  {
  }

  lemma ParseStep(t: string, tok: Token, rest: string, ts: seq<Token>)
    requires t != "" && ParseOne(t) == Some((tok, rest)) && Parse(rest) == Some(ts)
    ensures Parse(t) == Some([tok] + ts)
  {
  }

  lemma WrittenIsNotEmpty(x: Item, t: string)
    ensures Write(x) + t != ""
  {
    ReadWord(x.kind, x.gap, "");
  }

  lemma RestIsWellFormed(items: seq<Item>)
    requires WellFormed(items) && items != []
    ensures StarText(items[0].tail) && ItemToken(items[0]).Some?
    ensures WellFormed(items[1..])
  {
  }

  lemma ReadLastItem(x: Item, comma: bool)
    requires StarText(x.tail) && ItemToken(x).Some?
    ensures Parse(Write(x) + (if comma then "," else "")) == Some([ItemToken(x).value])
  {
    var t := if comma then "," else "";
    ReadItem(x, t);
    WrittenIsNotEmpty(x, t);
    assert SkipComma(t) == "";
    ParseStep(Write(x) + t, ItemToken(x).value, "", []);
    assert [ItemToken(x).value] + [] == [ItemToken(x).value];
  }

  lemma ReadNextItem(x: Item, t: string, ts: seq<Token>)
    requires StarText(x.tail) && ItemToken(x).Some? && Parse(t) == Some(ts)
    ensures Parse(Write(x) + "," + t) == Some([ItemToken(x).value] + ts)
  {
    var u := "," + t;
    ReadItem(x, u);
    WrittenIsNotEmpty(x, u);
    assert SkipComma(u) == t;
    assert Write(x) + "," + t == Write(x) + u;
    ParseStep(Write(x) + u, ItemToken(x).value, t, ts);
  }

  /** The scanner undoes the printer, whatever spaces the printer puts in and with or without a final comma. */
  lemma {:induction false} ParseUndoesRender(items: seq<Item>, comma: bool)
    requires WellFormed(items)
    ensures Parse(Render(items, comma)) == Some(Tokens(items))
  {
    if items != [] {
      RestIsWellFormed(items);
      if |items| == 1 {
        ReadLastItem(items[0], comma);
        assert Tokens(items) == [ItemToken(items[0]).value];
      } else {
        ParseUndoesRender(items[1..], comma);
        ReadNextItem(items[0], Render(items[1..], comma), Tokens(items[1..]));
      }
    }
  }

  // ---------------------------------------------------------------- only what was written is read

  lemma {:induction false} SpacesBefore(t: string) returns (n: nat)
    ensures t == Spaces(n) + DropSpaces(t)
  {
    if t != "" && t[0] == ' ' {
      var m := SpacesBefore(t[1..]);
      n := m + 1;
      assert t == " " + t[1..];
    } else {
      n := 0;
    }
  }

  lemma StarTextPrepend(c: char, more: string)
    requires (c == ' ' || c == '*') && StarText(more)
    ensures StarText([c] + more)
    ensures StarCount([c] + more) == StarCount(more) + (if c == '*' then 1 else 0)
  {
    assert ([c] + more)[1..] == more;
  }

  lemma StarsUnfold(t: string)
    requires Stars(t).Some? && t != "" && t[0] != ','
    ensures (t[0] == ' ' || t[0] == '*') && Stars(t[1..]).Some? && Stars(t[1..]).value.1 == Stars(t).value.1
    ensures Stars(t).value.0 == Stars(t[1..]).value.0 + (if t[0] == '*' then 1 else 0)
  {
  }

  lemma HeadThen(t: string, more: string, rest: string)
    requires t != "" && t[1..] == more + rest
    ensures t == [t[0]] + more + rest
  {
    assert t == [t[0]] + t[1..];
  }

  lemma {:induction false} StarsBefore(t: string) returns (tail: string)
    requires Stars(t).Some?
    ensures StarText(tail) && StarCount(tail) == Stars(t).value.0
    ensures Boundary(Stars(t).value.1) && t == tail + Stars(t).value.1
  {
    if t == "" || t[0] == ',' {
      tail := "";
    } else {
      StarsUnfold(t);
      var more := StarsBefore(t[1..]);
      tail := [t[0]] + more;
      StarTextPrepend(t[0], more);
      HeadThen(t, more, Stars(t).value.1);
    }
  }

  lemma StripIsPrefix(word: string, t: string)
    requires Strip(word, t).Some?
    ensures t == word + Strip(word, t).value
  {
  }

  lemma LongWordBefore(first: string, last: string, t: string, rest: string) returns (gap: nat)
    requires Strip(first, t).Some? && Strip(last, DropSpaces(Strip(first, t).value)) == Some(rest)
    ensures t == first + Spaces(gap) + last + rest
  {
    StripIsPrefix(first, t);
    var r := Strip(first, t).value;
    StripIsPrefix(last, DropSpaces(r));
    gap := SpacesBefore(r);
    assert first + (Spaces(gap) + (last + rest)) == first + Spaces(gap) + last + rest;
  }

  lemma WordBefore(t: string) returns (gap: nat)
    requires Keyword(t).Some?
    ensures t == Word(Keyword(t).value.0, gap) + Keyword(t).value.1
  {
    var kind, rest := Keyword(t).value.0, Keyword(t).value.1;
    gap := 0;
    if t[0] == 'u' {
      gap := LongWordBefore("unsigned ", if kind.UnsignedInt? then "int" else "char", t, rest);
    } else if t[0] == 'l' {
      gap := LongWordBefore("long ", "int", t, rest);
    } else {
      StripIsPrefix(Word(kind, 0), t);
    }
  }

  lemma ParseOneParts(t: string, kind: Kind, u: string, n: nat, rest: string)
    requires ParseOne(t).Some? && Keyword(DropSpaces(t)) == Some((kind, u)) && Stars(u) == Some((n, rest))
    ensures TokenFor(kind, n) == Some(ParseOne(t).value.0) && SkipComma(rest) == ParseOne(t).value.1
  {
  }

  lemma ParseOneSucceeds(t: string)
    requires ParseOne(t).Some?
    ensures Keyword(DropSpaces(t)).Some? && Stars(Keyword(DropSpaces(t)).value.1).Some?
  {
  }

  lemma ItemBefore(t: string) returns (x: Item, rest: string)
    requires ParseOne(t).Some?
    ensures StarText(x.tail) && ItemToken(x) == Some(ParseOne(t).value.0)
    ensures Boundary(rest) && SkipComma(rest) == ParseOne(t).value.1
    ensures t == Write(x) + rest
  {
    ParseOneSucceeds(t);
    var lead := SpacesBefore(t);
    var gap := WordBefore(DropSpaces(t));
    var (kind, u) := Keyword(DropSpaces(t)).value;
    var tail := StarsBefore(u);
    rest := Stars(u).value.1;
    x := Item(kind, lead, gap, tail);
    ParseOneParts(t, kind, u, StarCount(tail), rest);
    Joined(lead, Word(kind, gap), tail, rest);
  }

  lemma PrependItem(x: Item, items: seq<Item>)
    requires StarText(x.tail) && ItemToken(x).Some? && WellFormed(items)
    ensures WellFormed([x] + items) && Tokens([x] + items) == [ItemToken(x).value] + Tokens(items)
  {
    assert ([x] + items)[1..] == items;
  }

  lemma RenderPrepended(x: Item, items: seq<Item>, comma: bool)
    requires items != []
    ensures Render([x] + items, comma) == Write(x) + "," + Render(items, comma)
  {
    assert ([x] + items)[1..] == items;
  }

  lemma ParseUnfold(t: string)
    requires t != "" && Parse(t).Some?
    ensures ParseOne(t).Some? && Parse(ParseOne(t).value.1).Some?
    ensures Parse(t).value == [ParseOne(t).value.0] + Parse(ParseOne(t).value.1).value
  {
  }

  lemma OnlyItem(x: Item, rest: string)
    requires StarText(x.tail) && ItemToken(x).Some? && Boundary(rest) && SkipComma(rest) == ""
    ensures WellFormed([x]) && Tokens([x]) == [ItemToken(x).value]
    ensures Render([x], rest != "") == Write(x) + rest
  {
    assert rest == if rest != "" then "," else "";
  }

  lemma CommaBetween(w: string, rest: string)
    requires rest != "" && Boundary(rest)
    ensures w + rest == w + "," + SkipComma(rest)
  {
    assert rest == "," + SkipComma(rest);
  }

  lemma FirstItem(x: Item, rest: string, items: seq<Item>, comma: bool)
    requires items != [] && rest != "" && Boundary(rest) && SkipComma(rest) == Render(items, comma)
    ensures Render([x] + items, comma) == Write(x) + rest
  {
    RenderPrepended(x, items, comma);
    CommaBetween(Write(x), rest);
  }

  /** Every accepted format is the rendering of a list of items, and the tokens are the ones of those items. */
  lemma {:induction false} AcceptedIsRendered(t: string) returns (items: seq<Item>, comma: bool)
    requires Parse(t).Some?
    ensures WellFormed(items) && Parse(t) == Some(Tokens(items))
    ensures t == Render(items, comma)
    decreases |t|
  {
    if t == "" {
      items, comma := [], false;
    } else {
      ParseUnfold(t);
      var x, rest := ItemBefore(t);
      var next := SkipComma(rest);
      if next == "" {
        items, comma := [x], rest != "";
        OnlyItem(x, rest);
      } else {
        var more, last := AcceptedIsRendered(next);
        items, comma := [x] + more, last;
        PrependItem(x, more);
        FirstItem(x, rest, more, last);
      }
    }
  }

  /**
   The accepted language, both ways: the scanner answers `ts` exactly for the renderings of items with these tokens.
   */
  lemma AcceptsExactlyTheRenderings(t: string, ts: seq<Token>)
    ensures Parse(t) == Some(ts)
       <==> exists items, comma :: WellFormed(items) && Tokens(items) == ts && Render(items, comma) == t
  {
    if Parse(t) == Some(ts) {
      var items, comma := AcceptedIsRendered(t);
      assert WellFormed(items) && Tokens(items) == ts && Render(items, comma) == t;
    }
    forall items, comma | WellFormed(items) && Tokens(items) == ts && Render(items, comma) == t
      ensures Parse(t) == Some(ts)
    {
      ParseUndoesRender(items, comma);
    }
  }

  /** Spaces carry no meaning: formats with the same words and star counts get the same tokens. */
  lemma {:induction false} SpacingIsIrrelevant(xs: seq<Item>, ys: seq<Item>, c: bool, d: bool)
    requires WellFormed(xs) && WellFormed(ys) && |xs| == |ys|
    requires forall i :: 0 <= i < |xs| ==> xs[i].kind == ys[i].kind && StarCount(xs[i].tail) == StarCount(ys[i].tail)
    ensures Parse(Render(xs, c)) == Parse(Render(ys, d))
  {
    ParseUndoesRender(xs, c);
    ParseUndoesRender(ys, d);
    SameTokens(xs, ys);
  }

  lemma {:induction false} SameTokens(xs: seq<Item>, ys: seq<Item>)
    requires WellFormed(xs) && WellFormed(ys) && |xs| == |ys|
    requires forall i :: 0 <= i < |xs| ==> xs[i].kind == ys[i].kind && StarCount(xs[i].tail) == StarCount(ys[i].tail)
    ensures Tokens(xs) == Tokens(ys)
  {
    if xs != [] {
      SameTokens(xs[1..], ys[1..]);
    }
  }

  // ---------------------------------------------------------------- what the tokens stand for

  /** A C type: a base type and the number of stars behind it. */
  datatype CType = CType(base: Kind, stars: nat)

  /** The type each token stands for. */
  function TypeOf(t: Token): CType {
    match t
    case INT => CType(Int, 0)
    case INTP => CType(Int, 1)
    case INTPP => CType(Int, 2)
    case UINT => CType(UnsignedInt, 0)
    case UINTP => CType(UnsignedInt, 1)
    case UINTPP => CType(UnsignedInt, 2)
    case LINT => CType(LongInt, 0)
    case LINTP => CType(LongInt, 1)
    case LINTPP => CType(LongInt, 2)
    case CHRP => CType(Char, 1)
    case CHRPP => CType(Char, 2)
    case UCHRP => CType(UnsignedChar, 1)
    case UCHRPP => CType(UnsignedChar, 2)
    case FLTP => CType(Float, 1)
    case FLTPP => CType(Float, 2)
    case DBL => CType(Double, 0)
    case DBLP => CType(Double, 1)
    case DBLPP => CType(Double, 2)
    case VOIDP => CType(Void, 1)
  }

  /** Up to two stars, at least one behind types that are not passed by value, and exactly one behind `void`. */
  predicate CanBePassed(kind: Kind, stars: nat) {
    && stars <= 2
    && (kind.Char? || kind.UnsignedChar? || kind.Float? || kind.Void? ==> stars >= 1)
    && (kind.Void? ==> stars == 1)
  }

  /** Characters are read as unsigned ones. */
  function ReadAs(kind: Kind): Kind {
    if kind.Char? then UnsignedChar else kind
  }

  /** The size of what is passed: a pointer, or one of the base types that are passed by value. */
  lemma SizeOfType(abi: Abi, t: Token)
    ensures TypeOf(t).stars > 0 ==> SizeOf(abi, t) == abi.pointer
    ensures TypeOf(t) == CType(Int, 0) || TypeOf(t) == CType(UnsignedInt, 0) ==> SizeOf(abi, t) == abi.int_
    ensures TypeOf(t) == CType(LongInt, 0) ==> SizeOf(abi, t) == abi.long_
    ensures TypeOf(t) == CType(Double, 0) ==> SizeOf(abi, t) == abi.double_
  {
  }

  lemma RejectItem(x: Item, t: string)
    requires StarText(x.tail) && ItemToken(x).None? && Boundary(t)
    ensures ParseOne(Write(x) + t).None?
  {
    var w := Word(x.kind, x.gap);
    Joined(x.lead, w, x.tail, t);
    ReadWord(x.kind, x.gap, x.tail + t);
    DropWrittenSpaces(x.lead, w + (x.tail + t));
    ReadStars(x.tail, t);
  }

  /** Which tokens there are, and what they stand for. */
  lemma TokenStandsForType(kind: Kind, stars: nat)
    ensures TokenFor(kind, stars).Some? <==> CanBePassed(kind, stars)
    ensures CanBePassed(kind, stars) ==> TypeOf(TokenFor(kind, stars).value) == CType(ReadAs(kind), stars)
  {
  }

  lemma RejectFormat(t: string)
    requires t != "" && ParseOne(t).None?
    ensures Parse(t).None?
  {
  }

  /**
   A format of one item, word and stars written with any spaces: it is accepted exactly if the type can be passed, and
   then gives the one token that stands for it, characters read as unsigned.
   */
  lemma OneItemFormat(x: Item, comma: bool)
    requires StarText(x.tail)
    ensures var r := Parse(Write(x) + if comma then "," else "");
            && (r.Some? <==> CanBePassed(x.kind, StarCount(x.tail)))
            && (r.Some? ==> |r.value| == 1 && TypeOf(r.value[0]) == CType(ReadAs(x.kind), StarCount(x.tail)))
  {
    var t := if comma then "," else "";
    TokenStandsForType(x.kind, StarCount(x.tail));
    if ItemToken(x).Some? {
      ReadLastItem(x, comma);
    } else {
      RejectItem(x, t);
      WrittenIsNotEmpty(x, t);
      RejectFormat(Write(x) + t);
    }
  }

  /** The buffer for a format is as long as its arguments together. */
  lemma {:induction false} BufferHoldsAll(abi: Abi, items: seq<Item>)
    requires WellFormed(items)
    ensures BufferSize(abi, Tokens(items)) == TypesSize(abi, items)
  {
    if items != [] {
      RestIsWellFormed(items);
      BufferHoldsAll(abi, items[1..]);
      TokenStandsForType(items[0].kind, StarCount(items[0].tail));
      SizeOfType(abi, ItemToken(items[0]).value);
      assert Tokens(items)[1..] == Tokens(items[1..]);
    }
  }

  function TypesSize(abi: Abi, items: seq<Item>): nat {
    if items == [] then 0
    else ArgumentSize(abi, items[0].kind, StarCount(items[0].tail)) + TypesSize(abi, items[1..])
  }

  /** What an argument of a type takes: a pointer, or a value of one of the types that are passed by value. */
  function ArgumentSize(abi: Abi, kind: Kind, stars: nat): nat {
    if stars > 0 then abi.pointer
    else
      match kind
      case LongInt => abi.long_
      case Double => abi.double_
      case _ => abi.int_
  }
}
