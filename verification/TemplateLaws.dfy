/** What a rendered page shows, told from the arguments alone. */
module TemplateLaws {
  import opened Template
  import opened TemplateRenderer

  /** The name stands for this text: the item in scope has it, or the item does not and it is a string argument. */
  ghost predicate Shows(arguments: Arguments, scope: Scope, name: string, text: string) {
    || (exists item :: scope == Within(item) && name in item && item[name] == text)
    || ((forall item :: scope == Within(item) ==> name !in item)
        && name in arguments && arguments[name] == Str(text))
  }

  /** The name stands for nothing: the item in scope does not have it, and it is no argument, or an array. */
  ghost predicate ShowsNothing(arguments: Arguments, scope: Scope, name: string) {
    && (forall item :: scope == Within(item) ==> name !in item)
    && (name in arguments ==> exists items :: arguments[name] == Array(items))
  }

  /** A token list with one token taken out for others. */
  lemma {:induction false} Spliced(arguments: Arguments, scope: Scope, a: seq<Token>, t: Token, b: seq<Token>,
                                   ts: seq<Token>)
    requires RenderToken(arguments, scope, t) == Render(arguments, scope, ts)
    ensures Render(arguments, scope, a + [t] + b) == Render(arguments, scope, a + ts + b)
  {
    hide RenderToken;
    RenderConcat(arguments, scope, a + [t], b);
    RenderConcat(arguments, scope, a, [t]);
    RenderConcat(arguments, scope, a + ts, b);
    RenderConcat(arguments, scope, a, ts);
    RenderSingle(arguments, scope, t);
  }

  lemma RenderSingle(arguments: Arguments, scope: Scope, t: Token)
    ensures Render(arguments, scope, [t]) == RenderToken(arguments, scope, t)
  {
    hide RenderToken;
    assert [t][..0] == [];
    var r := RenderToken(arguments, scope, t);
    assert r.Ok? ==> "" + r.value == r.value;
  }

  /** Text is shown as it is. */
  lemma TextShown(arguments: Arguments, scope: Scope, text: string)
    ensures Render(arguments, scope, [Text(text)]) == Ok(text)
  {
    RenderSingle(arguments, scope, Text(text));
  }

  /** A variable is shown as the text it stands for, or not at all. */
  lemma VariableShown(arguments: Arguments, scope: Scope, a: seq<Token>, name: string, b: seq<Token>, text: string)
    requires Shows(arguments, scope, name, text)
    ensures Render(arguments, scope, a + [Variable(name)] + b) == Render(arguments, scope, a + [Text(text)] + b)
  {
    RenderSingle(arguments, scope, Text(text));
    Spliced(arguments, scope, a, Variable(name), b, [Text(text)]);
  }

  lemma VariableMissing(arguments: Arguments, scope: Scope, a: seq<Token>, name: string, b: seq<Token>)
    requires ShowsNothing(arguments, scope, name)
    ensures Render(arguments, scope, a + [Variable(name)] + b) == Render(arguments, scope, a + b)
  {
    Spliced(arguments, scope, a, Variable(name), b, []);
    assert a + [] + b == a + b;
  }

  /** An `if` is its first part where its name stands for some text, and its second part where it stands for
    * empty text or for nothing. */
  lemma IfShown(arguments: Arguments, scope: Scope, a: seq<Token>, name: string, yes: seq<Token>, no: seq<Token>,
                b: seq<Token>, text: string)
    requires Shows(arguments, scope, name, text) && text != ""
    ensures Render(arguments, scope, a + [If(name, yes, no)] + b) == Render(arguments, scope, a + yes + b)
  {
    Spliced(arguments, scope, a, If(name, yes, no), b, yes);
  }

  lemma IfHidden(arguments: Arguments, scope: Scope, a: seq<Token>, name: string, yes: seq<Token>, no: seq<Token>,
                 b: seq<Token>)
    requires Shows(arguments, scope, name, "") || ShowsNothing(arguments, scope, name)
    ensures Render(arguments, scope, a + [If(name, yes, no)] + b) == Render(arguments, scope, a + no + b)
  {
    Spliced(arguments, scope, a, If(name, yes, no), b, no);
  }

  /** Every name stands for exactly one text, or for nothing. */
  lemma ShowsOne(arguments: Arguments, scope: Scope, name: string) returns (text: string)
    ensures if ShowsNothing(arguments, scope, name) then forall t :: !Shows(arguments, scope, name, t)
            else Shows(arguments, scope, name, text) && forall t :: Shows(arguments, scope, name, t) ==> t == text
  {
    text := GetVariable(arguments, scope, name);
    if scope.Within? {
      assert scope == Within(scope.item);
    }
    if name in arguments && arguments[name].Array? {
      assert arguments[name] == Array(arguments[name].items);
    }
  }

  /** A `foreach` over anything but an array shows nothing. */
  lemma ForeachNothing(arguments: Arguments, scope: Scope, a: seq<Token>, name: string, body: seq<Token>,
                       sep: seq<Token>, b: seq<Token>)
    requires name in arguments ==> exists text :: arguments[name] == Str(text)
    ensures Render(arguments, scope, a + [Foreach(name, body, sep)] + b) == Render(arguments, scope, a + b)
  {
    Spliced(arguments, scope, a, Foreach(name, body, sep), b, []);
    assert a + [] + b == a + b;
  }

  /** A tag that closes or divides no block ends the rendering with an error, wherever it stands in the list. */
  lemma StrayFails(arguments: Arguments, scope: Scope, a: seq<Token>, t: Token, b: seq<Token>)
    requires t == Else || t == Separator || t == End
    ensures Render(arguments, scope, a + [t] + b) == Error
  {
    RenderConcat(arguments, scope, a + [t], b);
    RenderConcat(arguments, scope, a, [t]);
    RenderSingle(arguments, scope, t);
  }
}
