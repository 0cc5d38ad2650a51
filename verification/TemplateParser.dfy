/** The recursive-descent parser with its shared cursor, proved against the parsing function. */
module TemplateParser {
  import opened Template

  /** `r` and the moved cursor `next` are what the parsing function `expected` of the rest. */
  predicate Agrees(expected: Result<Lexed>, data: string, pos: nat, r: Result<Token>, next: nat) {
    match expected
    case Error => r.Error?
    case Ok(Lexed(t, rest)) => r == Ok(t) && pos <= next <= |data| && data[next..] == rest
  }

  method GetNextToken(data: string, pos: nat) returns (r: Result<Token>, next: nat)
    requires pos < |data|
    ensures Agrees(NextToken(data[pos..]), data, pos + 1, r, next)
    decreases |data| - pos, 1
  {
    var specPos := pos + Find(data[pos..], '<', '%');
    if specPos != pos {
      NextIsText(data, pos);
      return Ok(Text(data[pos..specPos])), specPos;
    }
    r, next := GetTag(data, pos);
  }

  /** The same at an opening bracket. */
  method GetTag(data: string, pos: nat) returns (r: Result<Token>, next: nat)
    requires pos < |data| && Find(data[pos..], '<', '%') == 0
    ensures Agrees(NextToken(data[pos..]), data, pos + 1, r, next)
    decreases |data| - pos, 0
  {
    OpensAt(data, pos);
    var specPos := pos + 2;
    BracketedAt(data, specPos);
    var specEnd := specPos + Find(data[specPos..], '%', '>');
    if specEnd == |data| {
      UnclosedAt(data[pos..]);
      return Error, pos;
    }
    TagAt(data[pos..], data[specPos..specEnd], data[specEnd + 2..]);
    r, next := ReadTag(Trim(data[specPos..specEnd]), data, specEnd + 2);
  }

  lemma OpensAt(data: string, pos: nat)
    requires pos < |data| && Find(data[pos..], '<', '%') == 0
    ensures pos + 2 <= |data| && data[pos..][2..] == data[pos + 2..]
  {
    SliceOfRest(data, pos, pos + 2);
  }

  lemma UnclosedAt(s: string)
    requires s != "" && Find(s, '<', '%') == 0 && Bracketed(s[2..]).Error?
    ensures NextToken(s).Error?
  {
  }

  lemma TagAt(s: string, body: string, rest: string)
    requires s != "" && Find(s, '<', '%') == 0 && Bracketed(s[2..]) == Ok((body, rest))
    ensures NextToken(s) == Tag(Trim(body), rest)
  {
  }

  lemma NextIsText(data: string, pos: nat)
    requires pos < |data| && Find(data[pos..], '<', '%') != 0
    ensures var end := pos + Find(data[pos..], '<', '%');
            Agrees(NextToken(data[pos..]), data, pos + 1, Ok(Text(data[pos..end])), end)
  {
    SliceOfRest(data, pos, pos + Find(data[pos..], '<', '%'));
  }

  lemma BracketedAt(data: string, pos: nat)
    requires pos <= |data|
    ensures var end := pos + Find(data[pos..], '%', '>');
            Bracketed(data[pos..]) == if end == |data| then Error else Ok((data[pos..end], data[end + 2..]))
  {
    var rest := data[pos..];
    var n := Find(rest, '%', '>');
    if n < |rest| {
      assert Bracketed(rest) == Ok((rest[..n], rest[n + 2..]));
      SliceOfRest(data, pos, pos + n);
      SliceOfRest(data, pos, pos + n + 2);
    }
  }

  lemma SliceOfRest(data: string, pos: nat, end: nat)
    requires pos <= end <= |data|
    ensures data[pos..][..end - pos] == data[pos..end] && data[pos..][end - pos..] == data[end..]
  {
  }

  /** What follows the extraction of the tag body, with the cursor behind the tag. */
  method ReadTag(body: string, data: string, pos: nat) returns (r: Result<Token>, next: nat)
    requires pos <= |data|
    ensures Agrees(Tag(body, data[pos..]), data, pos, r, next)
    decreases |data| - pos, 4
  {
    next := pos;
    if body == "" {
      return Error, next;
    } else if body[0] != '#' {
      return Ok(Variable(body)), next;
    } else if body == "#end" {
      return Ok(End), next;
    } else if body == "#sep" {
      return Ok(Separator), next;
    } else if body == "#else" {
      return Ok(Else), next;
    } else if |body| >= 3 && body[..3] == "#if" {
      if |body| < 4 {
        return Error, next;
      }
      var ok, first, second;
      ok, first, second, next := ReadBranches(data, pos, Else);
      return if ok then Ok(If(Trim(body[4..]), first, second)) else Error, next;
    } else if |body| >= 4 && body[..4] == "#for" {
      if |body| < 5 {
        return Error, next;
      }
      var ok, first, second;
      ok, first, second, next := ReadBranches(data, pos, Separator);
      return if ok then Ok(Foreach(Trim(body[5..]), first, second)) else Error, next;
    }
    return Error, next;
  }

  method ReadBranches(data: string, pos: nat, middle: Token)
    returns (ok: bool, first: seq<Token>, second: seq<Token>, next: nat)
    requires pos <= |data|
    ensures match Branches(data[pos..], middle)
            case Error => !ok
            case Ok((f, s, rest)) =>
              ok && first == f && second == s && pos <= next <= |data| && data[next..] == rest
    decreases |data| - pos, 3
  {
    second := [];
    var end;
    ok, first, end, next := ParseSubtokens(data, pos, middle);
    if ok && end == middle {
      ok, second, end, next := ParseSubtokens(data, next, End);
    }
  }

  /** The tokens already read, put in front of what the rest of the section gives. */
  function Prefixed(tokens: seq<Token>, r: Result<Section>): Result<Section> {
    match r
    case Error => Error
    case Ok(s) => Ok(s.(tokens := tokens + s.tokens))
  }

  lemma PrefixedOnce(tokens: seq<Token>, t: Token, r: Result<Section>)
    ensures Prefixed(tokens, Prefixed([t], r)) == Prefixed(tokens + [t], r)
  {
    if r.Ok? {
      assert tokens + ([t] + r.value.tokens) == tokens + [t] + r.value.tokens;
    }
  }

  /** The loop that collects a section: it stops at a closing token, and fails at the end of the
    * text. */
  method ParseSubtokens(data: string, start: nat, other: Token)
    returns (ok: bool, result: seq<Token>, end: Token, pos: nat)
    requires start <= |data|
    ensures match Subtokens(data[start..], other)
            case Error => !ok
            case Ok(s) =>
              ok && result == s.tokens && end == s.closer && start < pos <= |data| && data[pos..] == s.rest
    decreases |data| - start, 2
  {
    result, pos, end := [], start, End;
    ghost var whole := Subtokens(data[start..], other);
    assert whole == Prefixed([], whole) by {
      if whole.Ok? {
        assert [] + whole.value.tokens == whole.value.tokens;
      }
    }
    while pos < |data|
      invariant start <= pos <= |data|
      invariant whole == Prefixed(result, Subtokens(data[pos..], other))
      decreases |data| - pos
    {
      var token, next := GetNextToken(data, pos);
      if token.Error? {
        return false, result, end, pos;
      }
      if Closes(token.value, other) {
        assert result + [] == result;
        return true, result, token.value, next;
      }
      PrefixedOnce(result, token.value, Subtokens(data[next..], other));
      result := result + [token.value];
      pos := next;
    }
    assert data[pos..] == "";
    return false, result, end, pos;
  }

  function Joined(tokens: seq<Token>, r: Result<seq<Token>>): Result<seq<Token>> {
    if r.Ok? then Ok(tokens + r.value) else Error
  }

  lemma JoinedOnce(tokens: seq<Token>, t: Token, r: Result<seq<Token>>)
    ensures Joined(tokens, Joined([t], r)) == Joined(tokens + [t], r)
  {
    if r.Ok? {
      assert tokens + ([t] + r.value) == tokens + [t] + r.value;
    }
  }

  lemma JoinedNothing(r: Result<seq<Token>>)
    ensures Joined([], r) == r
  {
    if r.Ok? {
      assert [] + r.value == r.value;
    }
  }

  lemma ParseNext(s: string)
    requires s != ""
    ensures match NextToken(s)
            case Error => Parse(s) == Error
            case Ok(Lexed(t, rest)) => Parse(s) == Joined([t], Parse(rest))
  {
  }

  /** The loop over a whole template. */
  method ParseTemplate(data: string) returns (r: Result<seq<Token>>)
    ensures r == Parse(data)
  {
    var pos, body := 0, [];
    ghost var whole := Parse(data);
    assert data[pos..] == data;
    JoinedNothing(whole);
    while pos < |data|
      invariant pos <= |data|
      invariant whole == Joined(body, Parse(data[pos..]))
    {
      ParseNext(data[pos..]);
      var token, next := GetNextToken(data, pos);
      if token.Error? {
        return Error;
      }
      JoinedOnce(body, token.value, Parse(data[next..]));
      body := body + [token.value];
      pos := next;
    }
    assert data[pos..] == "" && body + [] == body;
    return Ok(body);
  }
}
