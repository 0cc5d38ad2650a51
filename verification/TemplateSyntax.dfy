/** What each tag of a template text means, whatever stands around it and between its brackets
  * (template.cpp:113-185). */
module TemplateSyntax {
  import opened Template
  import opened TemplateRoundTrip
  import opened Seqs

  // ---- Reading on past the end -----------------------------------------------------------------

  lemma {:induction false} FindBehind(s: string, u: string, a: char, b: char)
    requires Find(s, a, b) < |s|
    ensures Find(s + u, a, b) == Find(s, a, b)
  {
    assert s + u == [s[0]] + (s[1..] + u);
    if !(s[0] == a && s[1] == b) {
      FindBehind(s[1..], u, a, b);
      assert (s + u)[1..] == s[1..] + u;
    }
  }

  lemma FindTag(s: string, u: string)
    requires StartsTag(u)
    ensures Find(s + u, '<', '%') == Find(s, '<', '%')
  {
    var k := Find(s, '<', '%');
    if k < |s| {
      FindBehind(s, u, '<', '%');
    } else {
      FindFirst(s, '<', '%');
      FindAfter(s, u[2..], '<', '%');
      assert s[..k] == s && s + u == s + ['<', '%'] + u[2..];
    }
  }

  lemma BracketedBehind(s: string, u: string)
    requires Bracketed(s).Ok?
    ensures Bracketed(s + u) == Ok((Bracketed(s).value.0, Bracketed(s).value.1 + u))
  {
    var e := Find(s, '%', '>');
    FindBehind(s, u, '%', '>');
    assert (s + u)[..e] == s[..e] && (s + u)[e + 2..] == s[e + 2..] + u;
  }

  /** What has been read whole is read alike with a tag behind it. */
  lemma {:induction false} TokenBehind(s: string, u: string)
    requires s != "" && StartsTag(u) && NextToken(s).Ok?
    ensures NextToken(s + u) == Ok(Lexed(NextToken(s).value.token, NextToken(s).value.rest + u))
    decreases |s|, 0
  {
    hide Find, Trim, Bracketed, Tag, StartsTag;
    var k := Find(s, '<', '%');
    FindTag(s, u);
    assert (s + u)[..k] == s[..k] && (s + u)[k..] == s[k..] + u;
    if k == 0 {
      var (body, rest) := Bracketed(s[2..]).value;
      assert (s + u)[2..] == s[2..] + u;
      BracketedBehind(s[2..], u);
      TagBehind(Trim(body), rest, u);
    }
  }

  lemma {:induction false} TagBehind(body: string, rest: string, u: string)
    requires StartsTag(u) && Tag(body, rest).Ok?
    ensures Tag(body, rest + u) == Ok(Lexed(Tag(body, rest).value.token, Tag(body, rest).value.rest + u))
    decreases |rest|, 3
  {
    if Branches(rest, Else).Ok? {
      BranchesBehind(rest, Else, u);
    }
    if Branches(rest, Separator).Ok? {
      BranchesBehind(rest, Separator, u);
    }
  }

  lemma {:induction false} BranchesBehind(s: string, middle: Token, u: string)
    requires StartsTag(u) && Branches(s, middle).Ok?
    ensures var b := Branches(s, middle).value; Branches(s + u, middle) == Ok((b.0, b.1, b.2 + u))
    decreases |s|, 2
  {
    SubtokensBehind(s, middle, u);
    var first := Subtokens(s, middle).value;
    if first.closer == middle {
      SubtokensBehind(first.rest, End, u);
    }
  }

  lemma {:induction false} SubtokensBehind(s: string, other: Token, u: string)
    requires StartsTag(u) && Subtokens(s, other).Ok?
    ensures var r := Subtokens(s, other).value; Subtokens(s + u, other) == Ok(r.(rest := r.rest + u))
    decreases |s|, 1
  {
    TokenBehind(s, u);
    var Lexed(t, rest) := NextToken(s).value;
    if !Closes(t, other) {
      SubtokensBehind(rest, other, u);
    }
  }

  // ---- Whole texts -----------------------------------------------------------------------------

  function Joined(first: seq<Token>, more: Result<seq<Token>>): Result<seq<Token>> {
    match more
    case Error => Error
    case Ok(ts) => Ok(first + ts)
  }

  /** A text and a tag behind it are parsed one after the other. */
  lemma {:induction false} ParseBehind(s: string, ts: seq<Token>, u: string)
    requires Parse(s) == Ok(ts) && StartsTag(u)
    ensures Parse(s + u) == Joined(ts, Parse(u))
    decreases |s|
  {
    if s == "" {
      assert s + u == u && ts == [];
      assert Parse(u).Ok? ==> [] + Parse(u).value == Parse(u).value;
    } else {
      var Lexed(t, rest) := NextToken(s).value;
      TokenBehind(s, u);
      ParseBehind(rest, ts[1..], u);
      if Parse(u).Ok? {
        Regroup([t], ts[1..], Parse(u).value);
      }
    }
  }

  /** The tag with this between its brackets is one of the language. */
  lemma ReadBrackets(body: string, rest: string)
    requires Lacks(body, '%', '>')
    ensures StartsTag(Brackets(body) + rest)
    ensures NextToken(Brackets(body) + rest) == Tag(Trim(body), rest)
  {
    var s := Brackets(body) + rest;
    assert s[0] == '<' && s[1] == '%' && s[2..] == body + ['%', '>'] + rest;
    FindAfter(body, rest, '%', '>');
    assert s[2..][..|body|] == body && s[2..][|body| + 2..] == rest;
  }

  /** Text without an opening bracket is text. */
  lemma PlainText(s: string)
    requires Lacks(s, '<', '%')
    ensures Parse(s) == Ok(if s == "" then [] else [Text(s)])
  {
    FindFirst(s, '<', '%');
    assert s[..|s|] == s && s[|s|..] == "";
    assert [Text(s)] + [] == [Text(s)];
  }

  /** Text in front of a tag is a token of its own. */
  lemma TextThenTag(text: string, body: string, rest: string)
    requires text != "" && Lacks(text, '<', '%') && Lacks(body, '%', '>')
    ensures Parse(text + (Brackets(body) + rest)) == Joined([Text(text)], Parse(Brackets(body) + rest))
  {
    PlainText(text);
    ReadBrackets(body, rest);
    ParseBehind(text, [Text(text)], Brackets(body) + rest);
  }

  /** A name between brackets, spaces around it or not, is a variable. */
  lemma VariableTag(body: string, rest: string)
    requires Lacks(body, '%', '>') && Trim(body) != "" && Trim(body)[0] != '#'
    ensures Parse(Brackets(body) + rest) == Joined([Variable(Trim(body))], Parse(rest))
  {
    ReadBrackets(body, rest);
  }

  /** The closing and dividing tags; outside a block they are tokens of their own. */
  lemma ClosingTag(body: string, rest: string)
    requires Lacks(body, '%', '>')
    ensures Trim(body) == "#end" ==> Parse(Brackets(body) + rest) == Joined([End], Parse(rest))
    ensures Trim(body) == "#else" ==> Parse(Brackets(body) + rest) == Joined([Else], Parse(rest))
    ensures Trim(body) == "#sep" ==> Parse(Brackets(body) + rest) == Joined([Separator], Parse(rest))
  {
    ReadBrackets(body, rest);
  }

  /** A tag that is not closed. */
  lemma UnclosedTag(rest: string)
    requires Lacks(rest, '%', '>')
    ensures Parse("<%" + rest) == Error
  {
    FindFirst(rest, '%', '>');
    assert ("<%" + rest)[2..] == rest;
  }

  /** An empty tag, a command that does not exist, and a block without a name. */
  lemma BadTag(body: string, rest: string)
    requires Lacks(body, '%', '>')
    requires var b := Trim(body);
      || b == "" || b == "#if" || b == "#for"
      || (b[0] == '#' && b !in ["#end", "#sep", "#else"] && !("#if" <= b) && !("#for" <= b))
    ensures Parse(Brackets(body) + rest) == Error
  {
    hide Tag, Trim, Bracketed, Find;
    BadBody(Trim(body), rest);
    ReadBrackets(body, rest);
  }

  lemma BadBody(b: string, rest: string)
    requires b == "" || b == "#if" || b == "#for"
          || (b[0] == '#' && b !in ["#end", "#sep", "#else"] && !("#if" <= b) && !("#for" <= b))
    ensures Tag(b, rest) == Error
  {
    hide Branches, Trim;
    assert ["#end", "#sep", "#else"][0] == "#end" && ["#end", "#sep", "#else"][1] == "#sep";
    assert ["#end", "#sep", "#else"][2] == "#else";
  }

  // ---- Blocks ----------------------------------------------------------------------------------

  /** A text without stray tags up to the closing tag makes up a section. */
  lemma {:induction false} SectionRead(s: string, ts: seq<Token>, other: Token, u: string, closer: Token, rest: string)
    requires Parse(s) == Ok(ts) && Open(ts, other) && StartsTag(u)
    requires NextToken(u) == Ok(Lexed(closer, rest)) && Closes(closer, other)
    ensures Subtokens(s + u, other) == Ok(Section(ts, closer, rest))
    decreases |s|
  {
    if s == "" {
      assert s + u == u;
    } else {
      var Lexed(t, after) := NextToken(s).value;
      TokenBehind(s, u);
      assert t == ts[0];
      OpenRest(ts, other);
      SectionRead(after, ts[1..], other, u, closer, rest);
    }
  }

  lemma OpenRest(ts: seq<Token>, other: Token)
    requires Open(ts, other) && ts != []
    ensures !Closes(ts[0], other) && Open(ts[1..], other)
  {
  }

  lemma {:induction false} SectionUnclosed(s: string, ts: seq<Token>, other: Token)
    requires Parse(s) == Ok(ts) && Open(ts, other)
    ensures Subtokens(s, other) == Error
    decreases |s|
  {
    if s != "" {
      OpenRest(ts, other);
      SectionUnclosed(NextToken(s).value.rest, ts[1..], other);
    }
  }

  /** A block's opening tag: the command, one character that is skipped, and the name. */
  predicate Opens(body: string, command: string, name: string) {
    && Lacks(body, '%', '>')
    && |Trim(body)| > |command| && Trim(body)[..|command|] == command && Trim(Trim(body)[|command| + 1..]) == name
  }

  /** A tag that is this command, spaces around it or not. */
  predicate Command(body: string, command: string) {
    Lacks(body, '%', '>') && Trim(body) == command
  }

  /** The kind of block each command opens, and the tag that divides it. */
  function Block(command: string, name: string, first: seq<Token>, second: seq<Token>): Token {
    if command == "#if" then If(name, first, second) else Foreach(name, first, second)
  }

  function Divider(command: string): (string, Token) {
    if command == "#if" then ("#else", Else) else ("#sep", Separator)
  }

  lemma OpensTag(body: string, command: string, name: string, rest: string)
    requires (command == "#if" || command == "#for") && Opens(body, command, name)
    ensures StartsTag(Brackets(body) + rest)
    ensures NextToken(Brackets(body) + rest)
         == match Branches(rest, Divider(command).1)
            case Error => Error
            case Ok((first, second, after)) => Ok(Lexed(Block(command, name, first, second), after))
  {
    hide Branches, Trim, Tag, NextToken;
    ReadBrackets(body, rest);
    if command == "#if" {
      IfBody(Trim(body), rest);
    } else {
      ForBody(Trim(body), rest);
    }
  }

  lemma IfBody(b: string, rest: string)
    requires |b| > 3 && b[..3] == "#if"
    ensures Tag(b, rest)
         == match Branches(rest, Else)
            case Error => Error
            case Ok((first, second, after)) => Ok(Lexed(If(Trim(b[4..]), first, second), after))
  {
    hide Branches, Trim;
    assert b[0] == b[..3][0] == '#' && b[1] == b[..3][1] == 'i';
  }

  lemma ForBody(b: string, rest: string)
    requires |b| > 4 && b[..4] == "#for"
    ensures Tag(b, rest)
         == match Branches(rest, Separator)
            case Error => Error
            case Ok((first, second, after)) => Ok(Lexed(Foreach(Trim(b[5..]), first, second), after))
  {
    hide Branches, Trim;
    assert b[0] == b[..4][0] == '#' && b[1] == b[..4][1] == 'f';
    assert b[..3][1] == 'f';
  }

  lemma ParseFirst(s: string)
    requires s != "" && NextToken(s).Ok?
    ensures Parse(s) == Joined([NextToken(s).value.token], Parse(NextToken(s).value.rest))
  {
  }

  /** A block with one part: from its opening tag over a text without stray tags to its `#end`. */
  lemma {:induction false} BlockRead(command: string, body: string, name: string, s: string, ts: seq<Token>,
                                     end: string, rest: string)
    requires (command == "#if" || command == "#for") && Opens(body, command, name) && Command(end, "#end")
    requires Parse(s) == Ok(ts) && Open(ts, Divider(command).1)
    ensures Parse(Brackets(body) + (s + (Brackets(end) + rest)))
         == Joined([Block(command, name, ts, [])], Parse(rest))
  {
    hide Parse, Subtokens, NextToken;
    var u := Brackets(end) + rest;
    ReadBrackets(end, rest);
    SectionRead(s, ts, Divider(command).1, u, End, rest);
    OpensTag(body, command, name, s + u);
    ParseFirst(Brackets(body) + (s + u));
  }

  /** A block with two parts, divided by `#else` or `#sep`. */
  lemma {:induction false} BlockDivided(command: string, body: string, name: string, s: string, ts: seq<Token>,
                                        middle: string, s2: string, ts2: seq<Token>, end: string, rest: string)
    requires (command == "#if" || command == "#for") && Opens(body, command, name)
    requires Command(middle, Divider(command).0) && Command(end, "#end")
    requires Parse(s) == Ok(ts) && Open(ts, Divider(command).1) && Parse(s2) == Ok(ts2) && Open(ts2, End)
    ensures Parse(Brackets(body) + (s + (Brackets(middle) + (s2 + (Brackets(end) + rest)))))
         == Joined([Block(command, name, ts, ts2)], Parse(rest))
  {
    hide Parse, Subtokens, NextToken;
    var u2 := Brackets(end) + rest;
    var u := Brackets(middle) + (s2 + u2);
    ReadBrackets(end, rest);
    ReadBrackets(middle, s2 + u2);
    SectionRead(s2, ts2, End, u2, End, rest);
    SectionRead(s, ts, Divider(command).1, u, Divider(command).1, s2 + u2);
    OpensTag(body, command, name, s + u);
    ParseFirst(Brackets(body) + (s + u));
  }

  /** A block that is not closed, or whose second part is not. */
  lemma BlockUnclosed(command: string, body: string, name: string, s: string, ts: seq<Token>, middle: string,
                      s2: string, ts2: seq<Token>)
    requires (command == "#if" || command == "#for") && Opens(body, command, name)
    requires Command(middle, Divider(command).0)
    requires Parse(s) == Ok(ts) && Open(ts, Divider(command).1) && Parse(s2) == Ok(ts2) && Open(ts2, End)
    ensures Parse(Brackets(body) + s) == Error
    ensures Parse(Brackets(body) + (s + (Brackets(middle) + s2))) == Error
  {
    var u := Brackets(middle) + s2;
    SectionUnclosed(s, ts, Divider(command).1);
    OpensTag(body, command, name, s);
    ReadBrackets(middle, s2);
    SectionUnclosed(s2, ts2, End);
    SectionRead(s, ts, Divider(command).1, u, Divider(command).1, s2);
    OpensTag(body, command, name, s + u);
  }
}
