/** Printing and parsing templates are inverse to each other on normal forms, and the parser
  * produces nothing else. */
module TemplateRoundTrip {
  import opened Template
  import opened Seqs

  predicate StartsTag(s: string) {
    |s| >= 2 && s[0] == '<' && s[1] == '%'
  }

  /** What may follow a token so that it is read back alone. */
  predicate Fits(t: Token, rest: string) {
    t.Text? ==> rest == "" || StartsTag(rest)
  }

  // ---- Print, then parse ---------------------------------------------------------------------------

  lemma ReadText(data: string, rest: string)
    requires data != "" && Lacks(data, '<', '%') && (rest == "" || StartsTag(rest))
    ensures NextToken(data + rest) == Ok(Lexed(Text(data), rest))
  {
    if rest == "" {
      assert data + rest == data;
      FindFirst(data, '<', '%');
    } else {
      assert rest == "<%" + rest[2..];
      assert data + rest == data + ['<', '%'] + rest[2..];
      FindAfter(data, rest[2..], '<', '%');
    }
    assert (data + rest)[..|data|] == data && (data + rest)[|data|..] == rest;
  }

  /** A bracketed body is found again: it is trimmed and does not contain the closing bracket. */
  lemma {:induction false} ReadTag(body: string, rest: string)
    requires Trimmed(body) && Lacks(body, '%', '>')
    ensures NextToken(Brackets(body) + rest) == Tag(body, rest)
  {
    var s := Brackets(body) + rest;
    assert s[0] == '<' && s[1] == '%';
    var inner := s[2..];
    assert inner == body + ['%', '>'] + rest;
    FindAfter(body, rest, '%', '>');
    assert inner[..|body|] == body && inner[|body| + 2..] == rest;
    var _, _ := TrimProperties(body);
  }

  lemma LacksBehind(lead: string, name: string)
    requires '%' !in lead && Lacks(name, '%', '>')
    ensures Lacks(lead + name, '%', '>')
  {
    var s := lead + name;
    forall i | 0 <= i < |s| - 1 ensures !(s[i] == '%' && s[i + 1] == '>') {
      if i < |lead| {
        assert s[i] == lead[i];
      } else {
        assert s[i] == name[i - |lead|] && s[i + 1] == name[i + 1 - |lead|];
      }
    }
  }

  lemma TrimmedBehind(lead: string, name: string)
    requires lead != "" && !IsSpace(lead[0]) && Trimmed(name)
    requires name == "" ==> !IsSpace(lead[|lead| - 1])
    ensures Trimmed(lead + name)
  {
    var s := lead + name;
    assert s[0] == lead[0];
    assert s[|s| - 1] == if name == "" then lead[|lead| - 1] else name[|name| - 1];
  }

  /** What stands in front of the name in a tag. */
  lemma ArgumentLead(prefix: string, name: string) returns (lead: string)
    requires prefix == "#if" || prefix == "#for"
    ensures lead == prefix + (if name == "" then ":" else " ")
    ensures prefix + Argument(name) == lead + name && '%' !in lead
    ensures !IsSpace(lead[0]) && (name == "" ==> !IsSpace(lead[|lead| - 1]))
  {
    lead := prefix + (if name == "" then ":" else " ");
  }

  lemma BehindLead(prefix: string, c: char, name: string)
    ensures var body := prefix + [c] + name;
            |body| > |prefix| && body[..|prefix|] == prefix && body[|prefix| + 1..] == name
  {
  }

  lemma TrimTrimmed(name: string)
    requires Trimmed(name)
    ensures Trim(name) == name
  {
    var _, _ := TrimProperties(name);
  }

  lemma ReadArgument(prefix: string, name: string)
    requires prefix == "#if" || prefix == "#for"
    requires Trimmed(name) && Lacks(name, '%', '>')
    ensures var body := prefix + Argument(name);
            && Trimmed(body) && Lacks(body, '%', '>')
            && |body| > |prefix| && body[..|prefix|] == prefix && Trim(body[|prefix| + 1..]) == name
  {
    var lead := ArgumentLead(prefix, name);
    LacksBehind(lead, name);
    TrimmedBehind(lead, name);
    BehindLead(prefix, if name == "" then ':' else ' ', name);
    TrimTrimmed(name);
  }

  /** The printed form of anything but a text starts with a tag. */
  lemma PrintStartsTag(t: Token, rest: string)
    requires !t.Text?
    ensures StartsTag(Print(t) + rest)
  {
  }

  lemma {:induction false} ReadToken(t: Token, rest: string)
    requires NormalToken(t) && Fits(t, rest)
    ensures Print(t) + rest != ""
    ensures NextToken(Print(t) + rest) == Ok(Lexed(t, rest))
    decreases t, 2
  {
    match t
    case Text(data) => ReadText(data, rest);
    case Variable(name) => ReadTag(name, rest);
    case End => ReadCloser(t, rest);
    case Separator => ReadCloser(t, rest);
    case Else => ReadCloser(t, rest);
    case If(_, _, _) => ReadBlock(t, rest);
    case Foreach(_, _, _) => ReadBlock(t, rest);
  }

  lemma {:induction false} ReadBlock(t: Token, rest: string)
    requires NormalToken(t) && (t.If? || t.Foreach?)
    ensures NextToken(Print(t) + rest) == Ok(Lexed(t, rest))
    decreases t, 1
  {
    if t.If? {
      var tail := PrintBranches(t.ifTrue, t.ifFalse, Else) + rest;
      ReadBranches(t, t.ifTrue, t.ifFalse, Else, rest);
      ReadIf(t.name, t.ifTrue, t.ifFalse, tail, rest);
      Block(Brackets("#if" + Argument(t.name)), t.ifTrue, t.ifFalse, Else, rest);
    } else {
      var tail := PrintBranches(t.body, t.sep, Separator) + rest;
      ReadBranches(t, t.body, t.sep, Separator, rest);
      ReadForeach(t.name, t.body, t.sep, tail, rest);
      Block(Brackets("#for" + Argument(t.name)), t.body, t.sep, Separator, rest);
    }
  }

  lemma Block(tag: string, first: seq<Token>, second: seq<Token>, middle: Token, rest: string)
    ensures tag + PrintAll(first) + (if second == [] then "" else Print(middle) + PrintAll(second))
            + Print(End) + rest
         == tag + (PrintBranches(first, second, middle) + rest)
  {
    Regroup5(tag, PrintAll(first), if second == [] then "" else Print(middle) + PrintAll(second), Print(End), rest);
  }

  lemma ReadIf(name: string, first: seq<Token>, second: seq<Token>, tail: string, rest: string)
    requires Trimmed(name) && Lacks(name, '%', '>')
    requires Branches(tail, Else) == Ok((first, second, rest))
    ensures NextToken(Brackets("#if" + Argument(name)) + tail) == Ok(Lexed(If(name, first, second), rest))
  {
    ReadArgument("#if", name);
    ReadTag("#if" + Argument(name), tail);
    assert ("#if" + Argument(name))[1] == 'i';
  }

  lemma ReadForeach(name: string, first: seq<Token>, second: seq<Token>, tail: string, rest: string)
    requires Trimmed(name) && Lacks(name, '%', '>')
    requires Branches(tail, Separator) == Ok((first, second, rest))
    ensures NextToken(Brackets("#for" + Argument(name)) + tail) == Ok(Lexed(Foreach(name, first, second), rest))
  {
    ReadArgument("#for", name);
    ReadTag("#for" + Argument(name), tail);
    assert ("#for" + Argument(name))[..3][1] == 'f';
  }

  /** The text of a block behind its opening tag. */
  function PrintBranches(first: seq<Token>, second: seq<Token>, middle: Token): string {
    PrintAll(first) + (if second == [] then "" else Print(middle) + PrintAll(second)) + Print(End)
  }

  predicate Closer(t: Token) {
    t == End || t == Separator || t == Else
  }

  lemma ReadCloser(t: Token, rest: string)
    requires Closer(t)
    ensures Print(t) + rest != "" && StartsTag(Print(t) + rest)
    ensures NextToken(Print(t) + rest) == Ok(Lexed(t, rest))
  {
    ReadTag(if t == End then "#end" else if t == Separator then "#sep" else "#else", rest);
  }

  lemma {:induction false} ReadBranches(block: Token, first: seq<Token>, second: seq<Token>, middle: Token,
                                        rest: string)
    requires || (block.If? && first == block.ifTrue && second == block.ifFalse && middle == Else)
             || (block.Foreach? && first == block.body && second == block.sep && middle == Separator)
    requires Normal(first) && Normal(second) && Open(first, middle) && Open(second, End)
    ensures Branches(PrintBranches(first, second, middle) + rest, middle) == Ok((first, second, rest))
    decreases block, 0
  {
    if second == [] {
      ReadSection(first, middle, End, rest);
      Shape(first, second, middle, rest);
      OneBranch(PrintAll(first) + Print(End) + rest, first, middle, rest);
    } else {
      var tail := PrintAll(second) + Print(End) + rest;
      ReadSection(first, middle, middle, tail);
      ReadSection(second, End, End, rest);
      Shape(first, second, middle, rest);
      TwoBranches(PrintAll(first) + Print(middle) + tail, first, second, middle, tail, rest);
    }
  }

  lemma Shape(first: seq<Token>, second: seq<Token>, middle: Token, rest: string)
    ensures PrintBranches(first, second, middle) + rest
         == if second == [] then PrintAll(first) + Print(End) + rest
            else PrintAll(first) + Print(middle) + (PrintAll(second) + Print(End) + rest)
  {
    if second == [] {
      assert PrintAll(first) + "" == PrintAll(first);
    } else {
      ThreeParts(PrintAll(first), Print(middle), PrintAll(second), Print(End), rest);
    }
  }

  lemma OneBranch(s: string, first: seq<Token>, middle: Token, rest: string)
    requires middle != End && Subtokens(s, middle) == Ok(Section(first, End, rest))
    ensures Branches(s, middle) == Ok((first, [], rest))
  {
  }

  lemma TwoBranches(s: string, first: seq<Token>, second: seq<Token>, middle: Token, tail: string, rest: string)
    requires Subtokens(s, middle) == Ok(Section(first, middle, tail))
    requires Subtokens(tail, End) == Ok(Section(second, End, rest))
    ensures Branches(s, middle) == Ok((first, second, rest))
  {
  }

  lemma ThreeParts(a: string, b: string, c: string, d: string, e: string)
    ensures a + (b + c) + d + e == a + b + (c + d + e)
  {
  }

  /** What follows the first token of a normal list, up to and behind its closer, fits it. */
  lemma TailFits(ts: seq<Token>, closer: Token, rest: string)
    requires Normal(ts) && ts != [] && Closer(closer)
    ensures Fits(ts[0], PrintAll(ts[1..]) + Print(closer) + rest)
  {
    var end := Print(closer) + rest;
    assert PrintAll(ts[1..]) + Print(closer) + rest == PrintAll(ts[1..]) + end;
    if |ts| == 1 {
      PrintStartsTag(closer, rest);
      assert PrintAll(ts[1..]) + end == end;
    } else if ts[0].Text? {
      PrintAllStartsTag(ts[1..], end);
    }
  }

  lemma PrintAllStartsTag(ts: seq<Token>, rest: string)
    requires ts != [] && !ts[0].Text?
    ensures StartsTag(PrintAll(ts) + rest)
  {
    PrintStartsTag(ts[0], PrintAll(ts[1..]) + rest);
    assert PrintAll(ts) + rest == Print(ts[0]) + (PrintAll(ts[1..]) + rest);
  }

  lemma {:induction false} ReadSection(ts: seq<Token>, other: Token, closer: Token, rest: string)
    requires Normal(ts) && Open(ts, other) && Closes(closer, other) && Closer(closer)
    ensures Subtokens(PrintAll(ts) + Print(closer) + rest, other) == Ok(Section(ts, closer, rest))
    decreases ts
  {
    if ts == [] {
      assert PrintAll(ts) + Print(closer) + rest == Print(closer) + rest;
      ReadCloser(closer, rest);
    } else {
      var tail := PrintAll(ts[1..]) + Print(closer) + rest;
      Regroup4(Print(ts[0]), PrintAll(ts[1..]), Print(closer), rest);
      TailFits(ts, closer, rest);
      ReadToken(ts[0], tail);
      assert Open(ts[1..], other);
      ReadSection(ts[1..], other, closer, rest);
      Prepended(ts, tail, other, closer, rest);
    }
  }

  lemma Prepended(ts: seq<Token>, tail: string, other: Token, closer: Token, rest: string)
    requires ts != [] && !Closes(ts[0], other)
    requires Print(ts[0]) + tail != "" && NextToken(Print(ts[0]) + tail) == Ok(Lexed(ts[0], tail))
    requires Subtokens(tail, other) == Ok(Section(ts[1..], closer, rest))
    ensures Subtokens(Print(ts[0]) + tail, other) == Ok(Section(ts, closer, rest))
  {
    FirstAndRest(ts);
  }

  lemma FirstAndRest<T>(s: seq<T>)
    requires s != []
    ensures [s[0]] + s[1..] == s
  {
  }

  /** Nothing that follows a text in a normal form could belong to it. */
  lemma NextFits(ts: seq<Token>)
    requires ts != [] && Normal(ts)
    ensures Fits(ts[0], PrintAll(ts[1..]))
  {
    if |ts| > 1 && !ts[1].Text? {
      PrintStartsTag(ts[1], PrintAll(ts[2..]));
    }
  }

  lemma ParseFirst(t: Token, tail: string, more: seq<Token>)
    requires Print(t) + tail != "" && NextToken(Print(t) + tail) == Ok(Lexed(t, tail)) && Parse(tail) == Ok(more)
    ensures Parse(Print(t) + tail) == Ok([t] + more)
  {
  }

  /** PRINT, THEN PARSE: every normal form is recovered from its printed form, at any nesting. */
  lemma {:induction false} PrintParse(ts: seq<Token>)
    requires Normal(ts)
    ensures Parse(PrintAll(ts)) == Ok(ts)
  {
    if ts != [] {
      NextFits(ts);
      ReadToken(ts[0], PrintAll(ts[1..]));
      PrintParse(ts[1..]);
      ParseFirst(ts[0], PrintAll(ts[1..]), ts[1..]);
      FirstAndRest(ts);
    }
  }

  // ---- Parse, then print -----------------------------------------------------------------------------

  /** A tag body that can have come out of the brackets. */
  predicate Inside(body: string) {
    Trimmed(body) && Lacks(body, '%', '>')
  }

  lemma InsideTrim(s: string)
    requires Lacks(s, '%', '>')
    ensures Inside(Trim(s))
  {
    var i, j := TrimProperties(s);
    LacksSlice(s, i, j, '%', '>');
  }

  lemma {:induction false} NextNormal(s: string)
    requires s != "" && NextToken(s).Ok?
    ensures var r := NextToken(s).value;
            NormalToken(r.token) && Fits(r.token, r.rest) && (StartsTag(s) ==> !r.token.Text?)
    decreases |s|, 0
  {
    var k := Find(s, '<', '%');
    FindFirst(s, '<', '%');
    if k == 0 {
      var inner := s[2..];
      var e := Find(inner, '%', '>');
      FindFirst(inner, '%', '>');
      InsideTrim(inner[..e]);
      TagNormal(Trim(inner[..e]), inner[e + 2..]);
    }
  }

  lemma TagArgument(body: string, rest: string)
    requires Tag(body, rest).Ok?
    ensures Tag(body, rest).value.token.If? ==> |body| >= 4
    ensures Tag(body, rest).value.token.Foreach? ==> |body| >= 5
  {
  }

  lemma {:induction false} TagNormal(body: string, rest: string)
    requires Inside(body) && Tag(body, rest).Ok?
    ensures NormalToken(Tag(body, rest).value.token) && !Tag(body, rest).value.token.Text?
    decreases |rest|, 3
  {
    var t := Tag(body, rest).value.token;
    TagArgument(body, rest);
    if t.If? {
      LacksSlice(body, 4, |body|, '%', '>');
      InsideTrim(body[4..]);
      BranchesNormal(rest, Else);
    } else if t.Foreach? {
      LacksSlice(body, 5, |body|, '%', '>');
      InsideTrim(body[5..]);
      BranchesNormal(rest, Separator);
    }
  }

  lemma {:induction false} BranchesNormal(s: string, middle: Token)
    requires Branches(s, middle).Ok?
    ensures var (first, second, _) := Branches(s, middle).value;
            Normal(first) && Normal(second) && Open(first, middle) && Open(second, End)
    decreases |s|, 2
  {
    SectionNormal(s, middle);
    var first := Subtokens(s, middle).value;
    if first.closer == middle {
      SectionNormal(first.rest, End);
    }
  }

  lemma {:induction false} SectionNormal(s: string, other: Token)
    requires Subtokens(s, other).Ok?
    ensures var r := Subtokens(s, other).value;
            Normal(r.tokens) && Open(r.tokens, other)
            && (StartsTag(s) && r.tokens != [] ==> !r.tokens[0].Text?)
    decreases |s|, 1
  {
    NextNormal(s);
    var next := NextToken(s).value;
    if !Closes(next.token, other) {
      SectionNormal(next.rest, other);
    }
  }

  /** PARSE GIVES NORMAL FORMS: an accepted template never yields empty or adjacent texts, or names
    * the printer could not reproduce. */
  lemma {:induction false} ParseNormal(s: string)
    requires Parse(s).Ok?
    ensures Normal(Parse(s).value)
    ensures StartsTag(s) && Parse(s).value != [] ==> !Parse(s).value[0].Text?
    decreases |s|
  {
    if s != "" {
      NextNormal(s);
      ParseNormal(NextToken(s).value.rest);
    }
  }

  /** PARSE, THEN PRINT: printing what was parsed and parsing it again changes nothing, for every
    * accepted template, stray tags and empty names included. */
  lemma ParsePrint(s: string)
    requires Parse(s).Ok?
    ensures Parse(PrintAll(Parse(s).value)) == Parse(s)
  {
    ParseNormal(s);
    PrintParse(Parse(s).value);
  }

  /** The normal forms are exactly what the parser can produce. */
  lemma NormalIffParsed(ts: seq<Token>)
    ensures Normal(ts) <==> exists s :: Parse(s) == Ok(ts)
  {
    if Normal(ts) {
      PrintParse(ts);
    }
    if exists s :: Parse(s) == Ok(ts) {
      var s :| Parse(s) == Ok(ts);
      ParseNormal(s);
    }
  }
}
