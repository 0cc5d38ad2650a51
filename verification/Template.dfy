/** The page template language: its tokens, its printed form and its parser as a function of the
  * text that is left. */
module Template {

  datatype Result<+T> = Ok(value: T) | Error

  datatype Token =
    | Text(data: string)
    | Variable(name: string)
    | Foreach(name: string, body: seq<Token>, sep: seq<Token>)
    | If(name: string, ifTrue: seq<Token>, ifFalse: seq<Token>)
    | End
    | Separator
    | Else

  // ---- Trimming --------------------------------------------------------------------------------

  predicate IsSpace(c: char) {
    c == ' ' || c == '\t' || c == '\n' || c == '\r'
  }

  /** Index of the first character that is not a space; the length if there is none. */
  function FirstNotSpace(s: string): (i: nat)
    ensures i <= |s| && (i < |s| ==> !IsSpace(s[i]))
    ensures forall k :: 0 <= k < i ==> IsSpace(s[k])
  {
    if s == "" || !IsSpace(s[0]) then 0 else 1 + FirstNotSpace(s[1..])
  }

  /** One past the index of the last character that is not a space. */
  function AfterLastNotSpace(s: string): (i: nat)
    ensures i <= |s| && (i > 0 ==> !IsSpace(s[i - 1]))
    ensures forall k :: i <= k < |s| ==> IsSpace(s[k])
  {
    if s == "" then 0
    else if !IsSpace(s[|s| - 1]) then |s|
    else AfterLastNotSpace(s[..|s| - 1])
  }

  function Trim(s: string): string {
    var start := FirstNotSpace(s);
    if start == |s| then "" else s[start..AfterLastNotSpace(s)]
  }

  predicate Trimmed(s: string) {
    s != "" ==> !IsSpace(s[0]) && !IsSpace(s[|s| - 1])
  }

  /** `s[i..j]` is `t`, and the rest of `s` is spaces. */
  predicate CutTo(s: string, i: nat, j: nat, t: string) {
    && i <= j <= |s| && s[i..j] == t
    && (forall k :: 0 <= k < i ==> IsSpace(s[k])) && (forall k :: j <= k < |s| ==> IsSpace(s[k]))
  }

  /** Trimming cuts off spaces only, leaves none at either end, and leaves trimmed text alone. */
  lemma TrimProperties(s: string) returns (i: nat, j: nat)
    ensures Trimmed(Trim(s))
    ensures Trimmed(s) ==> Trim(s) == s
    ensures CutTo(s, i, j, Trim(s))
  {
    i, j := FirstNotSpace(s), AfterLastNotSpace(s);
    if i == |s| {
      i, j := 0, 0;
    }
  }

  // ---- Searching ---------------------------------------------------------------------------------

  /** Index of the first occurrence of the two characters `a`, `b`; the length if there is none. */
  function Find(s: string, a: char, b: char): (i: nat)
    ensures i <= |s| && (i < |s| ==> i + 2 <= |s| && s[i] == a && s[i + 1] == b)
  {
    if |s| < 2 then |s|
    else if s[0] == a && s[1] == b then 0
    else 1 + Find(s[1..], a, b)
  }

  predicate Lacks(s: string, a: char, b: char) {
    forall i :: 0 <= i < |s| - 1 ==> !(s[i] == a && s[i + 1] == b)
  }

  lemma {:induction false} FindFirst(s: string, a: char, b: char)
    ensures Lacks(s[..Find(s, a, b)], a, b)
    ensures Find(s, a, b) == |s| <==> Lacks(s, a, b)
  {
    if |s| >= 2 {
      if s[0] == a && s[1] == b {
        assert !Lacks(s, a, b);
      } else {
        var rest := s[1..];
        FindFirst(rest, a, b);
        var k := Find(rest, a, b);
        assert Find(s, a, b) == k + 1;
        forall i | 0 <= i < k ensures !(s[i] == a && s[i + 1] == b) {
          if i > 0 {
            assert rest[..k][i - 1] == s[i] && (i < k ==> s[i + 1] == rest[i]);
          }
        }
        if Lacks(s, a, b) {
          forall i | 0 <= i < |rest| - 1 ensures !(rest[i] == a && rest[i + 1] == b) {
            assert rest[i] == s[i + 1] && rest[i + 1] == s[i + 2];
          }
        }
        if Lacks(rest, a, b) {
          forall i | 0 <= i < |s| - 1 ensures !(s[i] == a && s[i + 1] == b) {
            assert i > 0 ==> rest[i - 1] == s[i] && rest[i] == s[i + 1];
          }
        }
      }
    }
  }

  /** A text without the pair, followed by the pair, is found to end there: the last character of
    * the text cannot combine with the first of the pair as long as the two differ. */
  lemma {:induction false} FindAfter(s: string, rest: string, a: char, b: char)
    requires Lacks(s, a, b) && a != b
    ensures Find(s + [a, b] + rest, a, b) == |s|
  {
    var t := s + [a, b] + rest;
    if s != "" {
      assert t[0] == s[0] && t[1] == (if |s| > 1 then s[1] else a);
      forall i | 0 <= i < |s[1..]| - 1 ensures !(s[1..][i] == a && s[1..][i + 1] == b) {
        assert s[1..][i] == s[i + 1] && s[1..][i + 1] == s[i + 2];
      }
      FindAfter(s[1..], rest, a, b);
      assert t[1..] == s[1..] + [a, b] + rest;
    }
  }

  lemma LacksSlice(s: string, i: nat, j: nat, a: char, b: char)
    requires i <= j <= |s| && Lacks(s, a, b)
    ensures Lacks(s[i..j], a, b)
  {
    forall k | 0 <= k < |s[i..j]| - 1 ensures !(s[i..j][k] == a && s[i..j][k + 1] == b) {
      assert s[i..j][k] == s[i + k] && s[i..j][k + 1] == s[i + k + 1];
    }
  }

  // ---- Parsing -------------------------------------------------------------------------------------

  /** A token and the text behind it. */
  datatype Lexed = Lexed(token: Token, rest: string)

  /** The tokens up to a closing token, that token, and the text behind it. */
  datatype Section = Section(tokens: seq<Token>, closer: Token, rest: string)

  /** A section ends at `End` or at `other`; `End` itself stands for no second closer. */
  predicate Closes(t: Token, other: Token) {
    t == End || t == other
  }

  function NextToken(s: string): (r: Result<Lexed>)
    requires s != ""
    ensures r.Ok? ==> |r.value.rest| < |s|
    decreases |s|, 0
  {
    var k := Find(s, '<', '%');
    if k != 0 then Ok(Lexed(Text(s[..k]), s[k..]))
    else match Bracketed(s[2..])
      case Error => Error
      case Ok((body, rest)) => Tag(Trim(body), rest)
  }

  /** The text up to the closing bracket, and the text behind it. */
  function Bracketed(s: string): (r: Result<(string, string)>)
    ensures r.Ok? ==> |r.value.1| < |s|
  {
    var e := Find(s, '%', '>');
    if e == |s| then Error else Ok((s[..e], s[e + 2..]))
  }

  /** The token that starts with the tag `body`; `rest` is the text behind the tag. */
  function Tag(body: string, rest: string): (r: Result<Lexed>)
    ensures r.Ok? ==> |r.value.rest| <= |rest|
    decreases |rest|, 3
  {
    if body == "" then Error
    else if body[0] != '#' then Ok(Lexed(Variable(body), rest))
    else if body == "#end" then Ok(Lexed(End, rest))
    else if body == "#sep" then Ok(Lexed(Separator, rest))
    else if body == "#else" then Ok(Lexed(Else, rest))
    else if |body| >= 3 && body[..3] == "#if" then
      if |body| < 4 then Error
      else match Branches(rest, Else)
        case Error => Error
        case Ok((first, second, after)) => Ok(Lexed(If(Trim(body[4..]), first, second), after))
    else if |body| >= 4 && body[..4] == "#for" then
      if |body| < 5 then Error
      else match Branches(rest, Separator)
        case Error => Error
        case Ok((first, second, after)) => Ok(Lexed(Foreach(Trim(body[5..]), first, second), after))
    else Error
  }

  /** One section, and a second one if the first was closed by `middle`. */
  function Branches(s: string, middle: Token): (r: Result<(seq<Token>, seq<Token>, string)>)
    ensures r.Ok? ==> |r.value.2| <= |s|
    decreases |s|, 2
  {
    match Subtokens(s, middle)
    case Error => Error
    case Ok(first) =>
      if first.closer != middle then Ok((first.tokens, [], first.rest))
      else match Subtokens(first.rest, End)
        case Error => Error
        case Ok(second) => Ok((first.tokens, second.tokens, second.rest))
  }

  function Subtokens(s: string, other: Token): (r: Result<Section>)
    ensures r.Ok? ==> |r.value.rest| < |s| && Closes(r.value.closer, other)
    decreases |s|, 1
  {
    if s == "" then Error
    else match NextToken(s)
      case Error => Error
      case Ok(Lexed(t, rest)) =>
        if Closes(t, other) then Ok(Section([], t, rest))
        else match Subtokens(rest, other)
          case Error => Error
          case Ok(more) => Ok(more.(tokens := [t] + more.tokens))
  }

  function Parse(s: string): Result<seq<Token>>
    decreases |s|
  {
    if s == "" then Ok([])
    else match NextToken(s)
      case Error => Error
      case Ok(Lexed(t, rest)) =>
        match Parse(rest)
        case Error => Error
        case Ok(more) => Ok([t] + more)
  }

  // ---- Printing -----------------------------------------------------------------------------------

  /** How a name follows `#if` or `#for`; the character in between is skipped by the parser. */
  function Argument(name: string): string {
    if name == "" then ":" else " " + name
  }

  function Brackets(body: string): string {
    "<%" + body + "%>"
  }

  function Print(t: Token): string
    decreases t, 0
  {
    match t
    case Text(data) => data
    case Variable(name) => Brackets(name)
    case End => Brackets("#end")
    case Separator => Brackets("#sep")
    case Else => Brackets("#else")
    case If(name, ifTrue, ifFalse) =>
      Brackets("#if" + Argument(name)) + PrintAll(ifTrue)
      + (if ifFalse == [] then "" else Brackets("#else") + PrintAll(ifFalse)) + Brackets("#end")
    case Foreach(name, body, sep) =>
      Brackets("#for" + Argument(name)) + PrintAll(body)
      + (if sep == [] then "" else Brackets("#sep") + PrintAll(sep)) + Brackets("#end")
  }

  function PrintAll(ts: seq<Token>): string
    decreases ts, 1
  {
    if ts == [] then "" else Print(ts[0]) + PrintAll(ts[1..])
  }

  // ---- Normal form -------------------------------------------------------------------------------

  predicate NormalToken(t: Token)
    decreases t, 0
  {
    match t
    case Text(data) => data != "" && Lacks(data, '<', '%')
    case Variable(name) => name != "" && name[0] != '#' && Trimmed(name) && Lacks(name, '%', '>')
    case If(name, ifTrue, ifFalse) =>
      Trimmed(name) && Lacks(name, '%', '>') && Normal(ifTrue) && Normal(ifFalse)
      && Open(ifTrue, Else) && Open(ifFalse, End)
    case Foreach(name, body, sep) =>
      Trimmed(name) && Lacks(name, '%', '>') && Normal(body) && Normal(sep)
      && Open(body, Separator) && Open(sep, End)
    case _ => true
  }

  /** No empty and no adjacent texts, names as the parser leaves them. */
  predicate Normal(ts: seq<Token>)
    decreases ts, 1
  {
    ts == [] ||
    (NormalToken(ts[0]) && Normal(ts[1..]) && !(ts[0].Text? && |ts| > 1 && ts[1].Text?))
  }

  /** None of the tokens would close a section that may end at `other`. */
  predicate Open(ts: seq<Token>, other: Token) {
    forall i :: 0 <= i < |ts| ==> !Closes(ts[i], other)
  }
}
