/**
 `FastWriter`: the tokens of the value with no white space between them.
 */
module JsonWriter {
  import opened JsonValue
  import opened JsonNumber
  import opened JsonString
  import opened JsonText

  /** The tokens one after the other; the YAML-compatible form has a space after each colon. */
  function Rendered(toks: seq<Tok>, yaml: bool): string {
    if toks == [] then []
    else Spelling(toks[0]) + (if yaml && toks[0].Colon? then " " else "") + Rendered(toks[1..], yaml)
  }

  lemma {:induction false} RenderedAppend(a: seq<Tok>, b: seq<Tok>, yaml: bool)
    ensures Rendered(a + b, yaml) == Rendered(a, yaml) + Rendered(b, yaml)
  {
    if a == [] {
      assert a + b == b;
    } else {
      assert (a + b)[1..] == a[1..] + b;
      RenderedAppend(a[1..], b, yaml);
    }
  }

  lemma {:induction false} RenderedSpells(toks: seq<Tok>, yaml: bool)
    ensures Spells(Rendered(toks, yaml), toks)
  {
    if toks == [] {
      SpaceSpellsNothing([]);
    } else {
      var gap := if yaml && toks[0].Colon? then " " else "";
      TokenSpellsItself(toks[0]);
      SpaceSpellsNothing(gap);
      SpellsAppend(Spelling(toks[0]), [toks[0]], gap, []);
      RenderedSpells(toks[1..], yaml);
      SpellsAppend(Spelling(toks[0]) + gap, [toks[0]] + [], Rendered(toks[1..], yaml), toks[1..]);
      assert [toks[0]] + [] + toks[1..] == toks;
    }
  }

  /** The text of a value that is neither a non-empty array nor a non-empty object. */
  predicate IsLeaf(v: Value) {
    match v.data
    case Arr(es) => Size(es) == 0
    case Obj(es) => |es| == 0
    case _ => true
  }

  /** The scalar branches shared by the two writers' `writeValue`. */
  method ScalarText(v: Value) returns (text: string)
    requires Writable(v) && !v.data.Arr? && !v.data.Obj?
    ensures |Tokens(v)| == 1 && text == Spelling(Tokens(v)[0])
  {
    match v.data {
      case Null => text := "null";
      case Int(i) => text := IntToString(i);
      case UInt(u) => text := LargestUIntToString(u as uint64);
      case Str(t) => text := ValueToQuotedString(t.value);
      case Bool(b) => text := if b then "true" else "false";
    }
  }

  // ----- how the rendered text of a container is made up -----

  lemma RenderedOne(t: Tok, yaml: bool)
    ensures Rendered([t], yaml) == Spelling(t) + if yaml && t.Colon? then " " else ""
  {
    assert Rendered([t][1..], yaml) == [];
  }

  lemma RenderedThree(a: seq<Tok>, b: seq<Tok>, c: seq<Tok>, yaml: bool)
    ensures Rendered(a + b + c, yaml) == Rendered(a, yaml) + Rendered(b, yaml) + Rendered(c, yaml)
  {
    RenderedAppend(a + b, c, yaml);
    RenderedAppend(a, b, yaml);
  }

  lemma RenderedBetween(open: Tok, toks: seq<Tok>, close: Tok, yaml: bool)
    requires !open.Colon? && !close.Colon?
    ensures Rendered([open] + toks + [close], yaml) == Spelling(open) + Rendered(toks, yaml) + Spelling(close)
  {
    hide *;
    RenderedThree([open], toks, [close], yaml);
    RenderedOne(open, yaml);
    RenderedOne(close, yaml);
  }

  lemma RenderedSeparator(i: nat, yaml: bool)
    ensures Rendered(Separator(i), yaml) == if i == 0 then "" else ","
  {
    if i > 0 {
      RenderedOne(Comma, yaml);
    }
  }

  lemma RenderedName(name: string, yaml: bool)
    ensures Rendered([StrTok(name), Colon], yaml) == Quoted(name) + if yaml then ": " else ":"
  {
    assert [StrTok(name), Colon] == [StrTok(name)] + [Colon];
    RenderedAppend([StrTok(name)], [Colon], yaml);
    RenderedOne(StrTok(name), yaml);
    RenderedOne(Colon, yaml);
  }

  lemma ArrayRendered(v: Value, yaml: bool)
    requires Writable(v) && v.data.Arr?
    ensures Rendered(Tokens(v), yaml) == "[" + Rendered(ItemTokens(v, 0), yaml) + "]"
    ensures Rendered(ItemTokens(v, Size(v.data.entries)), yaml) == ""
  {
    ArrayTokens(v);
    RenderedBetween(LBracket, ItemTokens(v, 0), RBracket, yaml);
    assert Spelling(LBracket) == "[" && Spelling(RBracket) == "]" && Rendered([], yaml) == "";
    hide *;
  }

  lemma ItemRendered(v: Value, i: nat, yaml: bool)
    requires Writable(v) && v.data.Arr? && i < Size(v.data.entries)
    ensures Writable(At(v.data.entries, i)) && Height(At(v.data.entries, i)) < Height(v)
    ensures Rendered(ItemTokens(v, i), yaml) ==
            (if i == 0 then "" else ",") + Rendered(Tokens(At(v.data.entries, i)), yaml) + Rendered(ItemTokens(v, i + 1), yaml)
  {
    WritableAt(v, i);
    RenderedThree(Separator(i), Tokens(At(v.data.entries, i)), ItemTokens(v, i + 1), yaml);
    RenderedSeparator(i, yaml);
  }

  lemma ObjectRendered(v: Value, yaml: bool)
    requires Writable(v) && v.data.Obj?
    ensures Rendered(Tokens(v), yaml) == "{" + Rendered(MemberTokens(v, 0), yaml) + "}"
    ensures Rendered(MemberTokens(v, |v.data.entries|), yaml) == ""
  {
    ObjectTokens(v);
    RenderedBetween(LBrace, MemberTokens(v, 0), RBrace, yaml);
    assert Spelling(LBrace) == "{" && Spelling(RBrace) == "}" && Rendered([], yaml) == "";
    hide *;
  }

  lemma MemberRendered(v: Value, i: nat, yaml: bool)
    requires Writable(v) && v.data.Obj? && i < |v.data.entries|
    ensures var e := v.data.entries[i];
            && e.key.Name? && NulFree(e.key.s) && Writable(e.value) && Height(e.value) < Height(v)
            && Rendered(MemberTokens(v, i), yaml) ==
               (if i == 0 then "" else ",") + (Quoted(e.key.s) + if yaml then ": " else ":")
               + Rendered(Tokens(e.value), yaml) + Rendered(MemberTokens(v, i + 1), yaml)
  {
    WritableMember(v, i);
    var e := v.data.entries[i];
    var head := [StrTok(e.key.s), Colon];
    RenderedThree(Separator(i) + head, Tokens(e.value), MemberTokens(v, i + 1), yaml);
    RenderedAppend(Separator(i), head, yaml);
    RenderedSeparator(i, yaml);
    RenderedName(e.key.s, yaml);
  }

  class FastWriter {
    const yaml: bool
    const omitEndingLineFeed: bool
    var document: string

    constructor (yaml: bool, omitEndingLineFeed: bool)
      ensures this.yaml == yaml && this.omitEndingLineFeed == omitEndingLineFeed
    {
      this.yaml, this.omitEndingLineFeed := yaml, omitEndingLineFeed;
      document := "";
    }

    method Write(root: Value) returns (text: string)
      requires Writable(root)
      modifies this
      ensures text == Rendered(Tokens(root), yaml) + if omitEndingLineFeed then "" else "\n"
    {
      document := "";
      WriteValue(root);
      if !omitEndingLineFeed {
        document := document + "\n";
      }
      return document;
    }

    method WriteValue(v: Value)
      requires Writable(v)
      modifies this
      ensures document == old(document) + Rendered(Tokens(v), yaml)
      decreases Height(v), 1
    {
      if v.data.Arr? {
        WriteArray(v);
      } else if v.data.Obj? {
        WriteObject(v);
      } else {
        var text := ScalarText(v);
        document := document + text;
        assert Tokens(v) == [Tokens(v)[0]];
        RenderedOne(Tokens(v)[0], yaml);
      }
    }

    method WriteArray(v: Value)
      requires Writable(v) && v.data.Arr?
      modifies this
      ensures document == old(document) + Rendered(Tokens(v), yaml)
      decreases Height(v), 0
    {
      hide *;
      ghost var goal := document + Rendered(Tokens(v), yaml);
      ArrayRendered(v, yaml);
      document := document + "[";
      for index := 0 to Size(v.data.entries)
        invariant document + Rendered(ItemTokens(v, index), yaml) + "]" == goal
      {
        ItemRendered(v, index, yaml);
        ghost var before := document;
        if index > 0 {
          document := document + ",";
        }
        WriteValue(At(v.data.entries, index));
        assert document + Rendered(ItemTokens(v, index + 1), yaml) == before + Rendered(ItemTokens(v, index), yaml);
      }
      document := document + "]";
    }

    method WriteObject(v: Value)
      requires Writable(v) && v.data.Obj?
      modifies this
      ensures document == old(document) + Rendered(Tokens(v), yaml)
      decreases Height(v), 0, 1
    {
      hide *;
      ghost var goal := document + Rendered(Tokens(v), yaml);
      ObjectRendered(v, yaml);
      document := document + "{";
      for i := 0 to |v.data.entries|
        invariant document + Rendered(MemberTokens(v, i), yaml) + "}" == goal
      {
        WriteMember(v, i);
      }
      document := document + "}";
    }

    method WriteMember(v: Value, i: nat)
      requires Writable(v) && v.data.Obj? && i < |v.data.entries|
      modifies this
      ensures document + Rendered(MemberTokens(v, i + 1), yaml) == old(document) + Rendered(MemberTokens(v, i), yaml)
      decreases Height(v), 0, 0
    {
      hide *;
      MemberRendered(v, i, yaml);
      var e := v.data.entries[i];
      if i != 0 {
        document := document + ",";
      }
      var name := ValueToQuotedString(e.key.s);
      document := document + (name + if yaml then ": " else ":");
      WriteValue(e.value);
      FourJoined(old(document), if i == 0 then "" else ",", name + if yaml then ": " else ":",
                 Rendered(Tokens(e.value), yaml), Rendered(MemberTokens(v, i + 1), yaml));
    }
  }

  lemma FourJoined(d: string, a: string, b: string, c: string, e: string)
    ensures d + (a + b + c + e) == d + a + b + c + e
    ensures a == "" ==> d + a == d
  {
  }
}
