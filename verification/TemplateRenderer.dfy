/** Rendering: a denotation of token lists, its laws, and the appending renderer. */
module TemplateRenderer {
  import opened Template

  type Item = map<string, string>

  datatype Argument = Str(value: string) | Array(items: seq<Item>)

  type Arguments = map<string, Argument>

  /** The array element in scope, if any. */
  datatype Scope = Global | Within(item: Item)

  /** The element in scope hides the global argument; an array is empty text. */
  function GetVariable(arguments: Arguments, scope: Scope, name: string): string {
    if scope.Within? && name in scope.item then scope.item[name]
    else if name in arguments && arguments[name].Str? then arguments[name].value
    else ""
  }

  /** The items a `foreach` runs over: none unless the argument is an array. */
  function Items(arguments: Arguments, name: string): seq<Item> {
    if name in arguments && arguments[name].Array? then arguments[name].items else []
  }

  function Append(a: Result<string>, b: Result<string>): Result<string> {
    if a.Error? || b.Error? then Error else Ok(a.value + b.value)
  }

  // ---- The meaning of tokens ------------------------------------------------------------------------

  function RenderToken(arguments: Arguments, scope: Scope, t: Token): Result<string>
    decreases t, 1, 0
  {
    match t
    case Text(data) => Ok(data)
    case Variable(name) => Ok(GetVariable(arguments, scope, name))
    case If(name, ifTrue, ifFalse) =>
      if GetVariable(arguments, scope, name) == "" then Render(arguments, scope, ifFalse)
      else Render(arguments, scope, ifTrue)
    case Foreach(name, _, _) => RenderItems(arguments, Items(arguments, name), t)
    case _ => Error
  }

  function Render(arguments: Arguments, scope: Scope, ts: seq<Token>): Result<string>
    decreases ts, 2, 0
  {
    if ts == [] then Ok("")
    else Append(Render(arguments, scope, ts[..|ts| - 1]), RenderToken(arguments, scope, ts[|ts| - 1]))
  }

  /** The body of a `foreach` for each item, with the separator in front of all but the first. */
  function RenderItems(arguments: Arguments, items: seq<Item>, block: Token): Result<string>
    requires block.Foreach?
    decreases block, 0, |items|
  {
    if items == [] then Ok("")
    else
      var last := |items| - 1;
      var earlier := RenderItems(arguments, items[..last], block);
      Append(if last == 0 then earlier else Append(earlier, Render(arguments, Global, block.sep)),
             Render(arguments, Within(items[last]), block.body))
  }

  // ---- The appending renderer -------------------------------------------------------------------------

  /** `rendered` has been appended to `before`, unless it is an error. */
  predicate Appended(before: string, after: string, rendered: Result<string>, ok: bool) {
    ok == rendered.Ok? && (ok ==> after == before + rendered.value)
  }

  lemma AppendedTwice(before: string, middle: string, after: string, a: Result<string>, b: Result<string>, ok: bool)
    requires Appended(before, middle, a, true) && Appended(middle, after, b, ok)
    ensures Appended(before, after, Append(a, b), ok)
  {
    if ok {
      assert before + a.value + b.value == before + (a.value + b.value);
    }
  }

  lemma RenderStep(arguments: Arguments, scope: Scope, ts: seq<Token>, i: nat)
    requires i < |ts|
    ensures Render(arguments, scope, ts[..i + 1])
         == Append(Render(arguments, scope, ts[..i]), RenderToken(arguments, scope, ts[i]))
  {
    assert ts[..i + 1][..i] == ts[..i];
  }

  lemma ItemsStep(arguments: Arguments, items: seq<Item>, block: Token, i: nat)
    requires i < |items| && block.Foreach?
    ensures var earlier := RenderItems(arguments, items[..i], block);
            RenderItems(arguments, items[..i + 1], block) ==
              Append(if i == 0 then earlier else Append(earlier, Render(arguments, Global, block.sep)),
                     Render(arguments, Within(items[i]), block.body))
  {
    assert items[..i + 1][..i] == items[..i];
  }

  /** The renderer appends to one result string; an unexpected token ends it with an exception. */
  class Renderer {
    const arguments: Arguments
    var result: string

    constructor (arguments: Arguments)
      ensures this.arguments == arguments && result == ""
    {
      this.arguments, result := arguments, "";
    }

    method YieldTokens(scope: Scope, tokens: seq<Token>) returns (ok: bool)
      modifies this
      ensures Appended(old(result), result, Render(arguments, scope, tokens), ok)
      decreases tokens, 2, 0
    {
      ok := true;
      var i := 0;
      while i < |tokens|
        invariant i <= |tokens| && ok
        invariant Appended(old(result), result, Render(arguments, scope, tokens[..i]), true)
      {
        ghost var before := result;
        RenderStep(arguments, scope, tokens, i);
        RenderPrefix(arguments, scope, tokens, i + 1);
        ok := YieldToken(scope, tokens[i]);
        AppendedTwice(old(result), before, result, Render(arguments, scope, tokens[..i]),
                      RenderToken(arguments, scope, tokens[i]), ok);
        if !ok {
          return;
        }
        i := i + 1;
      }
      assert tokens[..i] == tokens;
    }

    method YieldToken(scope: Scope, token: Token) returns (ok: bool)
      modifies this
      ensures Appended(old(result), result, RenderToken(arguments, scope, token), ok)
      decreases token, 1, 0
    {
      match token
      case Text(data) =>
        result := result + data;
        return true;
      case Variable(name) =>
        result := result + GetVariable(arguments, scope, name);
        return true;
      case Foreach(_, _, _) =>
        ok := YieldForeach(token);
      case If(name, ifTrue, ifFalse) =>
        if GetVariable(arguments, scope, name) == "" {
          ok := YieldTokens(scope, ifFalse);
        } else {
          ok := YieldTokens(scope, ifTrue);
        }
      case _ =>
        return false;
    }

    method YieldForeach(token: Token) returns (ok: bool)
      requires token.Foreach?
      modifies this
      ensures Appended(old(result), result, RenderItems(arguments, Items(arguments, token.name), token), ok)
      decreases token, 0, 0
    {
      ok := true;
      if token.name !in arguments || !arguments[token.name].Array? {
        return;
      }
      var items := arguments[token.name].items;
      var i := 0;
      while i < |items|
        invariant i <= |items| && ok
        invariant Appended(old(result), result, RenderItems(arguments, items[..i], token), true)
      {
        ghost var earlier := RenderItems(arguments, items[..i], token);
        ghost var before := result;
        ItemsStep(arguments, items, token, i);
        if i > 0 {
          ok := YieldTokens(Global, token.sep);
          AppendedTwice(old(result), before, result, earlier, Render(arguments, Global, token.sep), ok);
          if !ok {
            ItemsPrefix(arguments, items, token, i + 1);
            return;
          }
          earlier := Append(earlier, Render(arguments, Global, token.sep));
        }
        before := result;
        ok := YieldTokens(Within(items[i]), token.body);
        AppendedTwice(old(result), before, result, earlier, Render(arguments, Within(items[i]), token.body), ok);
        if !ok {
          ItemsPrefix(arguments, items, token, i + 1);
          return;
        }
        i := i + 1;
      }
      assert items[..i] == items;
    }
  }

  /** An error in the beginning of a list is an error of the list. */
  lemma {:induction false} RenderPrefix(arguments: Arguments, scope: Scope, ts: seq<Token>, n: nat)
    requires n <= |ts|
    ensures Render(arguments, scope, ts[..n]).Error? ==> Render(arguments, scope, ts).Error?
    decreases |ts|
  {
    if n < |ts| {
      RenderPrefix(arguments, scope, ts[..|ts| - 1], n);
      assert ts[..|ts| - 1][..n] == ts[..n];
    } else {
      assert ts[..n] == ts;
    }
  }

  lemma {:induction false} ItemsPrefix(arguments: Arguments, items: seq<Item>, block: Token, n: nat)
    requires n <= |items| && block.Foreach?
    ensures RenderItems(arguments, items[..n], block).Error? ==> RenderItems(arguments, items, block).Error?
    decreases |items|
  {
    if n < |items| {
      ItemsPrefix(arguments, items[..|items| - 1], block, n);
      assert items[..|items| - 1][..n] == items[..n];
    } else {
      assert items[..n] == items;
    }
  }

  // ---- Laws ----------------------------------------------------------------------------------------

  /** Rendering distributes over concatenation of token lists, errors included. */
  lemma {:induction false} RenderConcat(arguments: Arguments, scope: Scope, a: seq<Token>, b: seq<Token>)
    ensures Render(arguments, scope, a + b) == Append(Render(arguments, scope, a), Render(arguments, scope, b))
  {
    if b == [] {
      assert a + b == a;
      var r := Render(arguments, scope, a);
      assert r.Ok? ==> r.value + "" == r.value;
    } else {
      var last := |b| - 1;
      RenderConcat(arguments, scope, a, b[..last]);
      assert (a + b)[..|a + b| - 1] == a + b[..last];
      AppendAssociative(Render(arguments, scope, a), Render(arguments, scope, b[..last]),
                        RenderToken(arguments, scope, b[last]));
    }
  }

  lemma AppendAssociative(a: Result<string>, b: Result<string>, c: Result<string>)
    ensures Append(Append(a, b), c) == Append(a, Append(b, c))
  {
    if a.Ok? && b.Ok? && c.Ok? {
      assert a.value + b.value + c.value == a.value + (b.value + c.value);
    }
  }

  function Join(pieces: seq<string>, sep: string): string {
    if pieces == [] then ""
    else if |pieces| == 1 then pieces[0]
    else Join(pieces[..|pieces| - 1], sep) + sep + pieces[|pieces| - 1]
  }

  /** A `foreach` is the separator-join of its bodies; each body sees its own item, the separator
    * sees only the global arguments, and the surrounding scope plays no part. */
  lemma ForeachJoins(arguments: Arguments, scope: Scope, t: Token, items: seq<Item>, pieces: seq<string>, sep: string)
    requires t.Foreach? && t.name in arguments && arguments[t.name] == Array(items) && |pieces| == |items|
    requires forall i :: 0 <= i < |pieces| ==> Render(arguments, Within(items[i]), t.body) == Ok(pieces[i])
    requires Render(arguments, Global, t.sep) == Ok(sep)
    ensures RenderToken(arguments, scope, t) == Ok(Join(pieces, sep))
  {
    ItemsJoin(arguments, items, t, pieces, sep);
  }

  lemma {:induction false} ItemsJoin(arguments: Arguments, items: seq<Item>, t: Token, pieces: seq<string>, sep: string)
    requires t.Foreach? && |pieces| == |items|
    requires forall i :: 0 <= i < |pieces| ==> Render(arguments, Within(items[i]), t.body) == Ok(pieces[i])
    requires Render(arguments, Global, t.sep) == Ok(sep)
    ensures RenderItems(arguments, items, t) == Ok(Join(pieces, sep))
    decreases |items|
  {
    if items != [] {
      var last := |items| - 1;
      ItemsJoin(arguments, items[..last], t, pieces[..last], sep);
      assert "" + pieces[last] == pieces[last];
    }
  }

  /** No closing or middle tags outside their blocks, anywhere in the tree. */
  predicate NoStray(ts: seq<Token>)
    decreases ts, 1
  {
    ts == [] || (NoStray(ts[..|ts| - 1]) && NoStrayToken(ts[|ts| - 1]))
  }

  predicate NoStrayToken(t: Token)
    decreases t, 0
  {
    match t
    case Text(_) => true
    case Variable(_) => true
    case If(_, ifTrue, ifFalse) => NoStray(ifTrue) && NoStray(ifFalse)
    case Foreach(_, body, sep) => NoStray(body) && NoStray(sep)
    case _ => false
  }

  /** Rendering a tree without stray tags never fails, whatever the arguments. */
  lemma {:induction false} RenderSucceeds(arguments: Arguments, scope: Scope, ts: seq<Token>)
    requires NoStray(ts)
    ensures Render(arguments, scope, ts).Ok?
    decreases ts, 2, 0
  {
    if ts != [] {
      RenderSucceeds(arguments, scope, ts[..|ts| - 1]);
      TokenSucceeds(arguments, scope, ts[|ts| - 1]);
    }
  }

  lemma {:induction false} TokenSucceeds(arguments: Arguments, scope: Scope, t: Token)
    requires NoStrayToken(t)
    ensures RenderToken(arguments, scope, t).Ok?
    decreases t, 1, 0
  {
    if t.If? {
      RenderSucceeds(arguments, scope, t.ifTrue);
      RenderSucceeds(arguments, scope, t.ifFalse);
    } else if t.Foreach? {
      ItemsSucceed(arguments, Items(arguments, t.name), t);
    }
  }

  lemma {:induction false} ItemsSucceed(arguments: Arguments, items: seq<Item>, t: Token)
    requires t.Foreach? && NoStrayToken(t)
    ensures RenderItems(arguments, items, t).Ok?
    decreases t, 0, |items|
  {
    if items != [] {
      ItemsSucceed(arguments, items[..|items| - 1], t);
      RenderSucceeds(arguments, Global, t.sep);
      RenderSucceeds(arguments, Within(items[|items| - 1]), t.body);
    }
  }

  /** All names a token list mentions, at any depth. */
  function Names(ts: seq<Token>): set<string>
    decreases ts, 1
  {
    if ts == [] then {} else Names(ts[..|ts| - 1]) + TokenNames(ts[|ts| - 1])
  }

  function TokenNames(t: Token): set<string>
    decreases t, 0
  {
    match t
    case Variable(name) => {name}
    case If(name, ifTrue, ifFalse) => {name} + Names(ifTrue) + Names(ifFalse)
    case Foreach(name, body, sep) => {name} + Names(body) + Names(sep)
    case _ => {}
  }

  predicate AgreeOn<V(==)>(a: map<string, V>, b: map<string, V>, names: set<string>) {
    forall n :: n in names ==> (n in a <==> n in b) && (n in a ==> a[n] == b[n])
  }

  predicate ScopesAgree(a: Scope, b: Scope, names: set<string>) {
    match (a, b)
    case (Global, Global) => true
    case (Within(i), Within(j)) => AgreeOn(i, j, names)
    case _ => false
  }

  /** Only the names that occur in the template matter. */
  lemma {:induction false} RenderAgrees(a: Arguments, b: Arguments, s: Scope, t: Scope, ts: seq<Token>)
    requires AgreeOn(a, b, Names(ts)) && ScopesAgree(s, t, Names(ts))
    ensures Render(a, s, ts) == Render(b, t, ts)
    decreases ts, 2, 0
  {
    if ts != [] {
      RenderAgrees(a, b, s, t, ts[..|ts| - 1]);
      TokenAgrees(a, b, s, t, ts[|ts| - 1]);
    }
  }

  lemma {:induction false} TokenAgrees(a: Arguments, b: Arguments, s: Scope, t: Scope, token: Token)
    requires AgreeOn(a, b, TokenNames(token)) && ScopesAgree(s, t, TokenNames(token))
    ensures RenderToken(a, s, token) == RenderToken(b, t, token)
    decreases token, 1, 0
  {
    if token.If? {
      RenderAgrees(a, b, s, t, token.ifTrue);
      RenderAgrees(a, b, s, t, token.ifFalse);
    } else if token.Foreach? {
      ItemsAgree(a, b, Items(a, token.name), token);
    }
  }

  lemma {:induction false} ItemsAgree(a: Arguments, b: Arguments, items: seq<Item>, token: Token)
    requires token.Foreach? && AgreeOn(a, b, TokenNames(token))
    ensures RenderItems(a, items, token) == RenderItems(b, items, token)
    decreases token, 0, |items|
  {
    if items != [] {
      var last := |items| - 1;
      ItemsAgree(a, b, items[..last], token);
      RenderAgrees(a, b, Global, Global, token.sep);
      RenderAgrees(a, b, Within(items[last]), Within(items[last]), token.body);
    }
  }
}
