/**
 The scanner of lib/pfunc_pack.cpp as it runs: a cursor moving over a NUL-terminated format. Every read is at a
 position of the text or at its terminating NUL.
 */
module PackScanner {
  import opened Common
  import opened PackFormat

  const INVALID_TOKEN: int := -1

  /** A C string holds no NUL before its end. */
  predicate CString(format: string) {
    '\0' !in format
  }

  /** The character under the cursor; nothing lies behind the NUL. */
  function At(format: string, i: nat): char
    requires i <= |format|
  {
    if i < |format| then format[i] else '\0'
  }

  method SkipSpaces(format: string, i: nat) returns (j: nat)
    requires CString(format) && i <= |format|
    ensures i <= j <= |format| && format[j..] == DropSpaces(format[i..])
  {
    j := i;
    while At(format, j) == ' '
      invariant i <= j <= |format| && DropSpaces(format[j..]) == DropSpaces(format[i..])
      decreases |format| - j
    {
      assert format[j..][1..] == format[j + 1..];
      j := j + 1;
    }
  }

  function AddStars(stars: nat, r: Option<(nat, string)>): Option<(nat, string)> {
    match r case Some((n, rest)) => Some((stars + n, rest)) case None => None
  }

  lemma StarsAdvance(format: string, j: nat, stars: nat)
    requires j < |format| && format[j] != ','
    ensures format[j] == ' ' ==> AddStars(stars, Stars(format[j..])) == AddStars(stars, Stars(format[j + 1..]))
    ensures format[j] == '*' ==> AddStars(stars, Stars(format[j..])) == AddStars(stars + 1, Stars(format[j + 1..]))
    ensures format[j] != ' ' && format[j] != '*' ==> Stars(format[j..]).None?
  {
    assert format[j..][1..] == format[j + 1..];
  }

  /** The stars up to the next comma or the end, or INVALID_TOKEN if anything but stars and spaces is met. */
  method GetStarCount(format: string, i: nat) returns (count: int, j: nat)
    requires CString(format) && i <= |format|
    ensures i <= j <= |format|
    ensures Stars(format[i..]).None? ==> count == INVALID_TOKEN
    ensures Stars(format[i..]).Some? ==> count >= 0 && Stars(format[i..]) == Some((count, format[j..]))
  {
    var stars: nat := 0;
    j := i;
    while At(format, j) != ',' && At(format, j) != '\0'
      invariant i <= j <= |format| && Stars(format[i..]) == AddStars(stars, Stars(format[j..]))
      decreases |format| - j
    {
      StarsAdvance(format, j, stars);
      if At(format, j) == '*' {
        stars := stars + 1;
      } else if At(format, j) != ' ' {
        return INVALID_TOKEN, j;
      }
      j := j + 1;
    }
    count := stars;
  }

  /** Compares letter by letter and stops at the first that differs, so never behind the NUL. */
  method MatchWord(format: string, i: nat, word: string) returns (ok: bool, j: nat)
    requires CString(format) && CString(word) && i <= |format|
    ensures i <= j <= |format|
    ensures ok <==> Strip(word, format[i..]).Some?
    ensures ok ==> Strip(word, format[i..]) == Some(format[j..])
  {
    j := i;
    var k := 0;
    while k < |word|
      invariant 0 <= k <= |word| && j == i + k <= |format|
      invariant forall m :: 0 <= m < k ==> format[i + m] == word[m]
    {
      if At(format, j) != word[k] {
        assert j < |format| ==> format[i..][k] != word[k];
        return false, j;
      }
      j, k := j + 1, k + 1;
    }
    ok := true;
    assert format[i..][|word|..] == format[j..];
    assert forall m :: 0 <= m < |word| ==> format[i..][m] == word[m];
  }

  /** One word without a choice behind it. */
  method MatchPlain(format: string, i: nat, word: string, kind: Kind) returns (r: Option<Kind>, j: nat)
    requires CString(format) && CString(word) && i <= |format|
    ensures i <= j <= |format|
    ensures Attach(kind, Strip(word, format[i..])) == if r.Some? then Some((r.value, format[j..])) else None
    ensures r.Some? ==> r.value == kind
  {
    var ok;
    ok, j := MatchWord(format, i, word);
    r := if ok then Some(kind) else None;
  }

  /** The part behind `unsigned` and `long`; `char` is allowed behind the first only. */
  function Second(unsigned: bool, w: string): Option<(Kind, string)> {
    if w != "" && w[0] == 'i' then Attach(if unsigned then UnsignedInt else LongInt, Strip("int", w))
    else if unsigned && w != "" && w[0] == 'c' then Attach(UnsignedChar, Strip("char", w))
    else None
  }

  function SecondAfter(unsigned: bool, r: Option<string>): Option<(Kind, string)> {
    match r case Some(t) => Second(unsigned, DropSpaces(t)) case None => None
  }

  method MatchSecond(format: string, i: nat, unsigned: bool) returns (r: Option<Kind>, j: nat)
    requires CString(format) && i <= |format|
    ensures i <= j <= |format|
    ensures Second(unsigned, format[i..]) == if r.Some? then Some((r.value, format[j..])) else None
  {
    if At(format, i) == 'i' {
      r, j := MatchPlain(format, i, "int", if unsigned then UnsignedInt else LongInt);
    } else if unsigned && At(format, i) == 'c' {
      r, j := MatchPlain(format, i, "char", UnsignedChar);
    } else {
      r, j := None, i;
    }
  }

  method MatchLong(format: string, i: nat, unsigned: bool) returns (r: Option<Kind>, j: nat)
    requires CString(format) && i <= |format|
    ensures i <= j <= |format|
    ensures SecondAfter(unsigned, Strip(if unsigned then "unsigned " else "long ", format[i..]))
         == if r.Some? then Some((r.value, format[j..])) else None
  {
    var ok;
    ok, j := MatchWord(format, i, if unsigned then "unsigned " else "long ");
    if !ok {
      return None, j;
    }
    j := SkipSpaces(format, j);
    r, j := MatchSecond(format, j, unsigned);
  }

  lemma KeywordOfLongWords(t: string)
    requires t != ""
    ensures t[0] == 'u' ==> Keyword(t) == SecondAfter(true, Strip("unsigned ", t))
    ensures t[0] == 'l' ==> Keyword(t) == SecondAfter(false, Strip("long ", t))
  {
  }

  /** The outer switch: the first letter chooses the word that has to follow. */
  method MatchKeyword(format: string, i: nat) returns (r: Option<Kind>, j: nat)
    requires CString(format) && i <= |format|
    ensures i <= j <= |format|
    ensures Keyword(format[i..]) == if r.Some? then Some((r.value, format[j..])) else None
  {
    if i < |format| {
      KeywordOfLongWords(format[i..]);
    }
    match At(format, i)
    case 'i' => r, j := MatchPlain(format, i, "int", Int);
    case 'c' => r, j := MatchPlain(format, i, "char", Char);
    case 'd' => r, j := MatchPlain(format, i, "double", Double);
    case 'v' => r, j := MatchPlain(format, i, "void", Void);
    case 'f' => r, j := MatchPlain(format, i, "float", Float);
    case 'u' => r, j := MatchLong(format, i, true);
    case 'l' => r, j := MatchLong(format, i, false);
    case _ => r, j := None, i;
  }

  /** The rest of a turn of the main loop once the word is known. */
  function Finish(kind: Kind, r: Option<(nat, string)>): Option<(Token, string)> {
    match r
    case None => None
    case Some((n, rest)) => match TokenFor(kind, n) case None => None case Some(tok) => Some((tok, SkipComma(rest)))
  }

  lemma ParseOneIsFinish(t: string)
    ensures ParseOne(t)
         == match Keyword(DropSpaces(t)) case None => None case Some((kind, u)) => Finish(kind, Stars(u))
  {
  }

  method ExtractStars(format: string, i: nat, kind: Kind) returns (r: Option<Token>, j: nat)
    requires CString(format) && i <= |format|
    ensures i <= j <= |format|
    ensures Finish(kind, Stars(format[i..])) == if r.Some? then Some((r.value, format[j..])) else None
  {
    var count;
    count, j := GetStarCount(format, i);
    r := if count == INVALID_TOKEN then None else TokenFor(kind, count);
    if r.Some? && At(format, j) == ',' {
      assert format[j..][1..] == format[j + 1..];
      j := j + 1;
    }
  }

  /** One turn of the main loop. */
  method ExtractOne(format: string, i: nat) returns (r: Option<Token>, j: nat)
    requires CString(format) && i < |format|
    ensures i <= j <= |format|
    ensures ParseOne(format[i..]) == if r.Some? then Some((r.value, format[j..])) else None
  {
    ParseOneIsFinish(format[i..]);
    j := SkipSpaces(format, i);
    var kind;
    kind, j := MatchKeyword(format, j);
    if kind.None? {
      return None, j;
    }
    r, j := ExtractStars(format, j, kind.value);
  }

  function Prepend(ts: seq<Token>, r: Option<seq<Token>>): Option<seq<Token>> {
    match r case Some(us) => Some(ts + us) case None => None
  }

  lemma ParseAdvance(t: string, tok: Token, rest: string, ts: seq<Token>)
    requires t != "" && ParseOne(t) == Some((tok, rest))
    ensures Prepend(ts, Parse(t)) == Prepend(ts + [tok], Parse(rest))
  {
    if Parse(rest).Some? {
      var us := Parse(rest).value;
      assert ts + ([tok] + us) == ts + [tok] + us;
    }
  }

  lemma {:induction false} SizeOfAppended(abi: Abi, ts: seq<Token>, tok: Token)
    ensures BufferSize(abi, ts + [tok]) == BufferSize(abi, ts) + SizeOf(abi, tok)
  {
    if ts == [] {
      assert ts + [tok] == [tok];
    } else {
      SizeOfAppended(abi, ts[1..], tok);
      assert (ts + [tok])[1..] == ts[1..] + [tok];
    }
  }

  /**
   `extract_tokens` terminates on every format, answers INVALID_TOKEN exactly for the formats outside the language, and
   otherwise delivers the tokens and the sum of their sizes.
   */
  method ExtractTokens(abi: Abi, format: string) returns (size: int, tokens: seq<Token>)
    requires CString(format)
    ensures size == INVALID_TOKEN <==> Parse(format).None?
    ensures Parse(format).Some? ==> Parse(format) == Some(tokens) && size == BufferSize(abi, tokens)
  {
    var i := 0;
    size, tokens := 0, [];
    assert format[0..] == format;
    assert Parse(format).Some? ==> [] + Parse(format).value == Parse(format).value;
    while At(format, i) != '\0'
      invariant 0 <= i <= |format|
      invariant Parse(format) == Prepend(tokens, Parse(format[i..]))
      invariant size == BufferSize(abi, tokens)
      decreases |format| - i
    {
      var r, j := ExtractOne(format, i);
      if r.None? {
        return INVALID_TOKEN, tokens;
      }
      ParseAdvance(format[i..], r.value, format[j..], tokens);
      SizeOfAppended(abi, tokens, r.value);
      tokens := tokens + [r.value];
      size := size + SizeOf(abi, r.value);
      i := j;
    }
    assert format[i..] == "" && tokens + [] == tokens;
  }
}
