/**
 `Json::Reader` with its default features: comments allowed and skipped, any root value
 accepted, no dropped placeholders, no numeric keys.

 The functions state what a read yields; the class below runs the source's loops over the
 cursor, the node stack and the error list, and is proved to compute exactly that.
 */
module JsonReader {
  import opened JsonValue
  import opened Optional
  import opened JsonLexer
  import opened Decimals
  import opened JsonNumber
  import opened JsonString

  datatype Error = Error(problem: Problem, token: Token, extra: Option<nat>)

  /** A finished read: the value, or the one error it leaves; and the cursor afterwards. */
  datatype Outcome = Ok(value: Value, pos: nat) | Fail(error: Error, pos: nat)

  /** How a turn of the member loop ends: with an error, with the object closed, or neither. */
  datatype Step = Broken | Done | More

  /** A document, and the floating-point conversion of the C library. */
  datatype Source = Source(text: string, scan: string -> Option<real>) {

    predicate InRange(p: nat, r: Outcome) {
      p <= r.pos <= |text| && (r.Ok? ==> p < r.pos)
    }

    /** `recoverFromError` after an error. */
    function Recovered(error: Error, p: nat, until: TokenKind): (r: Outcome)
      requires p <= |text|
      ensures p <= r.pos <= |text|
    {
      Fail(error, Recover(text, p, until))
    }

    /** `readValue` */
    function ReadValue(p: nat): (r: Outcome)
      requires p <= |text|
      ensures InRange(p, r)
      decreases |text| - p, 1
    {
      var t := NextToken(text, p);
      match t.kind
      case ObjectBegin => ReadMembers(t.end, [], "", t.start)
      case ArrayBegin => ReadArray(t.end, t.start)
      case NumberToken =>
        (match DecodeNumber(text[t.start..t.end], scan)
         case None => Fail(Error(NotANumber, t, None), t.end)
         case Some(d) => Ok(Value(d, t.start, t.end), t.end))
      case StringToken =>
        (match DecodeString(text, t)
         case Bad(problem, at) => Fail(Error(problem, t, Some(at)), t.end)
         case Text(s) => Ok(Value(Str(Some(CStr(s))), t.start, t.end), t.end))
      case TrueToken => Ok(Value(Bool(true), t.start, t.end), t.end)
      case FalseToken => Ok(Value(Bool(false), t.start, t.end), t.end)
      case NullToken => Ok(Value(Null, t.start, t.end), t.end)
      case _ => Fail(Error(ValueExpected, t, None), t.end)
    }

    /** The rest of an object whose entries so far are `entries`, the last of them `last`. */
    function ReadMembers(p: nat, entries: seq<Entry>, last: string, start: nat): (r: Outcome)
      requires p <= |text|
      ensures InRange(p, r)
      decreases |text| - p, 2
    {
      var t := NextToken(text, p);
      if t.kind == ObjectEnd && last == "" then Ok(Value(Obj(entries), start, t.end), t.end)
      else if t.kind != StringToken then Recovered(Error(MissingMemberName, t, None), t.end, ObjectEnd)
      else
        match DecodeString(text, t)
        case Bad(problem, at) => Recovered(Error(problem, t, Some(at)), t.end, ObjectEnd)
        case Text(name) =>
          var colon := ReadToken(text, t.end);
          if colon.kind != MemberSeparator then Recovered(Error(MissingColon, colon, None), colon.end, ObjectEnd)
          else
            match ReadValue(colon.end)
            case Fail(e, q) => Recovered(e, q, ObjectEnd)
            case Ok(v, q) => AfterMember(q, Put(entries, Name(CStr(name)), v), name, start)
    }

    /** What follows a member: the closing brace, a comma, or a comment and any token. */
    function AfterMember(p: nat, entries: seq<Entry>, last: string, start: nat): (r: Outcome)
      requires p <= |text|
      ensures InRange(p, r)
      decreases |text| - p, 2
    {
      var comma := ReadToken(text, p);
      if comma.kind != ObjectEnd && comma.kind != ArraySeparator && comma.kind != Comment then
        Recovered(Error(MissingCommaOrBrace, comma, None), comma.end, ObjectEnd)
      else
        var t := NextToken(text, p);
        if t.kind == ObjectEnd then Ok(Value(Obj(entries), start, t.end), t.end)
        else ReadMembers(t.end, entries, last, start)
    }

    /** `readArray` */
    function ReadArray(p: nat, start: nat): (r: Outcome)
      requires p <= |text|
      ensures InRange(p, r)
      decreases |text| - p, 3
    {
      var q := SkipSpaces(text, p);
      if CharAt(text, q) == ']' then
        var t := ReadToken(text, q);
        Ok(Value(Arr([]), start, t.end), t.end)
      else ReadItems(q, [], 0, start)
    }

    /** The rest of an array from the element with index `index` on. */
    function ReadItems(p: nat, entries: seq<Entry>, index: nat, start: nat): (r: Outcome)
      requires p <= |text|
      ensures InRange(p, r)
      decreases |text| - p, 2
    {
      match ReadValue(p)
      case Fail(e, q) => Recovered(e, q, ArrayEnd)
      case Ok(v, q) =>
        var entries' := Put(entries, Index(index), v);
        var t := NextToken(text, q);
        if t.kind == ArrayEnd then Ok(Value(Arr(entries'), start, t.end), t.end)
        else if t.kind == ArraySeparator then ReadItems(t.end, entries', index + 1, start)
        else Recovered(Error(MissingCommaOrBracket, t, None), t.end, ArrayEnd)
    }
  }

  /**
   The reader object.  `nodes` models the stack of value pointers: a pushed slot is copied in
   and written back to its parent when it is popped, which nobody can observe because only
   the top of the stack is ever touched.
   */
  class Reader {
    const scan: string -> Option<real>
    var text: string
    var current: nat
    var nodes: seq<Value>
    var errors: seq<Error>

    constructor (scan: string -> Option<real>)
      ensures this.scan == scan && text == "" && current == 0 && nodes == [] && errors == []
    {
      this.scan := scan;
      text, current, nodes, errors := "", 0, [], [];
    }

    ghost function Src(): Source
      reads `text
    {
      Source(text, scan)
    }

    /** `currentValue()` */
    function Top(): Value
      requires nodes != []
      reads `nodes
    {
      nodes[|nodes| - 1]
    }

    /** The stack below the current value. */
    ghost function Below(): seq<Value>
      requires nodes != []
      reads `nodes
    {
      nodes[..|nodes| - 1]
    }

    method SetTop(v: Value)
      requires nodes != []
      modifies `nodes
      ensures nodes != [] && Top() == v && Below() == old(Below()) && |nodes| == old(|nodes|)
    {
      nodes := nodes[|nodes| - 1 := v];
    }

    // ----- scanning -----

    method GetNextChar() returns (c: char)
      requires current <= |text|
      modifies `current
      ensures c == CharAt(text, old(current))
      ensures current == if old(current) == |text| then |text| else old(current) + 1
    {
      if current == |text| {
        return '\0';
      }
      c := text[current];
      current := current + 1;
    }

    method SkipSpaces()
      requires current <= |text|
      modifies `current
      ensures current == JsonLexer.SkipSpaces(text, old(current))
    {
      while current != |text|
        invariant old(current) <= current <= |text|
        invariant JsonLexer.SkipSpaces(text, current) == JsonLexer.SkipSpaces(text, old(current))
        decreases |text| - current
      {
        var c := text[current];
        if c == ' ' || c == '\t' || c == '\r' || c == '\n' {
          current := current + 1;
        } else {
          break;
        }
      }
    }

    /** Compares from the last character backwards, as the source does. */
    method Match(pattern: string) returns (ok: bool)
      requires current <= |text|
      modifies `current
      ensures Scan(current, ok) == ScanWord(text, old(current), pattern)
    {
      if |text| - current < |pattern| {
        return false;
      }
      var index := |pattern|;
      while index > 0
        invariant 0 <= index <= |pattern|
        invariant forall i :: index <= i < |pattern| ==> text[current + i] == pattern[i]
      {
        index := index - 1;
        if text[current + index] != pattern[index] {
          return false;
        }
      }
      current := current + |pattern|;
      return true;
    }

    method ReadCStyleComment() returns (ok: bool)
      requires current <= |text|
      modifies `current
      ensures Scan(current, ok) == ScanBlockComment(text, old(current))
    {
      while current != |text|
        invariant old(current) <= current <= |text|
        invariant ScanBlockComment(text, current) == ScanBlockComment(text, old(current))
        decreases |text| - current
      {
        var c := GetNextChar();
        if c == '*' && CharAt(text, current) == '/' {
          assert ScanBlockComment(text, old(current)) == Scan(current + 1, true);
          var slash := GetNextChar();
          return slash == '/';
        }
      }
      var last := GetNextChar();
      return last == '/';
    }

    method ReadCppStyleComment() returns (ok: bool)
      requires current <= |text|
      modifies `current
      ensures ok && current == ScanLineComment(text, old(current))
    {
      while current != |text|
        invariant old(current) <= current <= |text|
        invariant ScanLineComment(text, current) == ScanLineComment(text, old(current))
        decreases |text| - current
      {
        var c := GetNextChar();
        if c == '\r' || c == '\n' {
          return true;
        }
      }
      return true;
    }

    method ReadComment() returns (ok: bool)
      requires current <= |text|
      modifies `current
      ensures Scan(current, ok) == ScanComment(text, old(current))
    {
      var c := GetNextChar();
      ok := false;
      if c == '*' {
        ok := ReadCStyleComment();
      } else if c == '/' {
        ok := ReadCppStyleComment();
      }
    }

    method ReadNumber()
      requires current <= |text|
      modifies `current
      ensures current == ScanNumber(text, old(current))
    {
      while current != |text|
        invariant old(current) <= current <= |text|
        invariant ScanNumber(text, current) == ScanNumber(text, old(current))
        decreases |text| - current
      {
        if !IsNumberChar(text[current]) {
          break;
        }
        current := current + 1;
      }
    }

    method ReadString() returns (ok: bool)
      requires current <= |text|
      modifies `current
      ensures Scan(current, ok) == ScanString(text, old(current))
    {
      var c := '\0';
      while current != |text|
        invariant old(current) <= current <= |text|
        invariant c != '"' && ScanString(text, current) == ScanString(text, old(current))
        decreases |text| - current
      {
        c := GetNextChar();
        if c == '\\' {
          var skipped := GetNextChar();
        } else if c == '"' {
          break;
        }
      }
      return c == '"';
    }

    method ReadToken() returns (token: Token)
      requires current <= |text|
      modifies `current
      ensures token == JsonLexer.ReadToken(text, old(current))
      ensures current == token.end
    {
      SkipSpaces();
      var start, ok := current, true;
      var kind := ErrorToken;
      var c := GetNextChar();
      if c == '{' {
        kind := ObjectBegin;
      } else if c == '}' {
        kind := ObjectEnd;
      } else if c == '[' {
        kind := ArrayBegin;
      } else if c == ']' {
        kind := ArrayEnd;
      } else if c == '"' {
        kind := StringToken;
        ok := ReadString();
      } else if c == '/' {
        kind := Comment;
        ok := ReadComment();
      } else if IsDigit(c) || c == '-' {
        kind := NumberToken;
        ReadNumber();
      } else if c == 't' {
        kind := TrueToken;
        ok := Match("rue");
      } else if c == 'f' {
        kind := FalseToken;
        ok := Match("alse");
      } else if c == 'n' {
        kind := NullToken;
        ok := Match("ull");
      } else if c == ',' {
        kind := ArraySeparator;
      } else if c == ':' {
        kind := MemberSeparator;
      } else if c == '\0' {
        kind := EndOfStream;
      } else {
        ok := false;
      }
      if !ok {
        kind := ErrorToken;
      }
      token := Token(kind, start, current);
    }

    method SkipCommentTokens() returns (token: Token)
      requires current <= |text|
      modifies `current
      ensures token == NextToken(text, old(current))
      ensures current == token.end
    {
      token := ReadToken();
      while token.kind == Comment
        invariant current == token.end <= |text|
        invariant token.kind != EndOfStream ==> token.start < token.end
        invariant NextToken(text, old(current)) == if token.kind == Comment then NextToken(text, current) else token
        decreases |text| - current, if token.kind == Comment then 1 else 0
      {
        token := ReadToken();
      }
    }

    // ----- errors -----

    method AddError(problem: Problem, token: Token, extra: Option<nat>) returns (ok: bool)
      modifies `errors
      ensures !ok && errors == old(errors) + [Error(problem, token, extra)]
    {
      errors := errors + [Error(problem, token, extra)];
      return false;
    }

    method RecoverFromError(until: TokenKind) returns (ok: bool)
      requires current <= |text|
      modifies `current, `errors
      ensures !ok && errors == old(errors)
      ensures current == Recover(text, old(current), until)
    {
      var errorCount := |errors|;
      var skip := ReadToken();
      while !(skip.kind == until || skip.kind == EndOfStream)
        invariant current == skip.end <= |text| && errors == old(errors)
        invariant skip.kind != EndOfStream ==> skip.start < skip.end
        invariant Recover(text, old(current), until) ==
                  if skip.kind == until || skip.kind == EndOfStream then current else Recover(text, current, until)
        decreases |text| - current, if skip.kind == EndOfStream then 0 else 1
      {
        skip := ReadToken();
      }
      errors := errors[..errorCount];
      return false;
    }

    method AddErrorAndRecover(problem: Problem, token: Token, until: TokenKind) returns (ok: bool)
      requires current <= |text|
      modifies `current, `errors
      ensures !ok && errors == old(errors) + [Error(problem, token, None)]
      ensures current == Recover(text, old(current), until)
    {
      ok := AddError(problem, token, None);
      ok := RecoverFromError(until);
    }

    // ----- values -----

    /** The state after a read whose outcome is `r`. */
    twostate predicate Did(r: Outcome, ok: bool)
      requires nodes != [] && old(nodes) != []
      reads this
    {
      && current == r.pos
      && |nodes| == old(|nodes|)
      && Below() == old(Below())
      && ok == r.Ok?
      && match r
         case Ok(v, _) => Top() == v && errors == old(errors)
         case Fail(e, _) => errors == old(errors) + [e]
    }

    method DecodeNumberToken(token: Token) returns (ok: bool)
      requires nodes != [] && token.start <= token.end <= |text| && IsNumberText(text[token.start..token.end])
      modifies `nodes, `errors
      ensures nodes != [] && |nodes| == old(|nodes|) && Below() == old(Below())
      ensures match DecodeNumber(text[token.start..token.end], scan)
              case None => !ok && Top() == old(Top()) && errors == old(errors) + [Error(NotANumber, token, None)]
              case Some(d) => ok && Top() == Value(d, token.start, token.end) && errors == old(errors)
    {
      hide DecodeNumber;
      var decoded := ComputeNumber(text[token.start..token.end], scan);
      if decoded.None? {
        ok := AddError(NotANumber, token, None);
      } else {
        SetTop(Value(decoded.value, token.start, token.end));
        ok := true;
      }
    }

    method DecodeStringToken(token: Token) returns (ok: bool)
      requires nodes != [] && token.start + 2 <= token.end <= |text|
      modifies `nodes, `errors
      ensures nodes != [] && |nodes| == old(|nodes|) && Below() == old(Below())
      ensures match DecodeString(text, token)
              case Bad(problem, at) => !ok && Top() == old(Top()) && errors == old(errors) + [Error(problem, token, Some(at))]
              case Text(t) => ok && Top() == Value(Str(Some(CStr(t))), token.start, token.end) && errors == old(errors)
    {
      hide DecodeString, CStr;
      var decoded := ComputeString(text, token);
      if decoded.Bad? {
        ok := AddError(decoded.problem, token, Some(decoded.at));
      } else {
        SetTop(Value(Str(Some(CStr(decoded.text))), token.start, token.end));
        ok := true;
      }
    }

    method ReadValue() returns (ok: bool)
      requires nodes != [] && current <= |text|
      modifies `current, `nodes, `errors
      ensures nodes != [] && Did(old(Src().ReadValue(current)), ok)
      decreases |text| - current, 1
    {
      hide DecodeNumber, DecodeString, NextToken, CStr, IsNumberText, Source.ReadMembers, Source.ReadArray, Source.ReadItems, Source.AfterMember, Source.Recovered;
      var token := SkipCommentTokens();
      if token.kind == ObjectBegin {
        ok := ReadObject(token);
        SetTop(Top().(limit := current));
      } else if token.kind == ArrayBegin {
        ok := ReadArray(token);
        SetTop(Top().(limit := current));
      } else if token.kind == NumberToken {
        ok := DecodeNumberToken(token);
      } else if token.kind == StringToken {
        ok := DecodeStringToken(token);
      } else if token.kind == TrueToken {
        SetTop(Value(Bool(true), token.start, token.end));
        ok := true;
      } else if token.kind == FalseToken {
        SetTop(Value(Bool(false), token.start, token.end));
        ok := true;
      } else if token.kind == NullToken {
        SetTop(Value(Null, token.start, token.end));
        ok := true;
      } else {
        SetTop(Top().(start := token.start, limit := token.end));
        ok := AddError(ValueExpected, token, None);
      }
    }

    /** The slot is the value already stored under the key, or a new null value. */
    method ReadChild(key: Key) returns (ok: bool)
      requires nodes != [] && current <= |text| && (Top().data.Arr? || Top().data.Obj?)
      modifies `current, `nodes, `errors
      ensures nodes != [] && |nodes| == old(|nodes|) && Below() == old(Below())
      ensures match old(Src().ReadValue(current))
              case Ok(v, q) =>
                && ok && current == q && errors == old(errors)
                && Top() == old(Top()).(data := (if old(Top()).data.Arr? then Arr(Put(old(Top()).data.entries, key, v))
                                                 else Obj(Put(old(Top()).data.entries, key, v))))
              case Fail(e, q) => !ok && current == q && errors == old(errors) + [e]
      decreases |text| - current, 2
    {
      var slot := Find(Top().data.entries, key);
      nodes := nodes + [if slot.Some? then slot.value else NULL_VALUE];
      assert Below() == old(nodes);
      ok := ReadValue();
      var child := Top();
      nodes := nodes[..|nodes| - 1];
      assert nodes == old(nodes);
      var entries := Put(Top().data.entries, key, child);
      SetTop(Top().(data := if Top().data.Arr? then Arr(entries) else Obj(entries)));
    }

    /** How far one turn of the member loop got towards the outcome `r`. */
    twostate predicate Stepped(step: Step, r: Outcome)
      requires nodes != [] && old(nodes) != []
      reads this
    {
      && |nodes| == old(|nodes|) && Below() == old(Below())
      && match step
         case Broken => r.Fail? && current == r.pos && errors == old(errors) + [r.error]
         case Done => r.Ok? && current == r.pos && errors == old(errors) && Top().(limit := r.pos) == r.value
         case More =>
           && errors == old(errors) && old(current) < current <= |text|
           && Top().data.Obj? && Top().start == old(Top().start)
    }

    /** The rest of a turn, from behind the member's value. */
    method FinishMember(name: string, start: nat) returns (step: Step)
      requires nodes != [] && current <= |text| && Top().data.Obj? && Top().start == start
      modifies `current, `errors
      ensures Stepped(step, old(Src().AfterMember(current, Top().data.entries, name, start)))
      ensures step.More? ==> old(Src().AfterMember(current, Top().data.entries, name, start))
                             == Src().ReadMembers(current, Top().data.entries, name, start)
    {
      hide Recover, Source.ReadMembers;
      var comma := ReadToken();
      if comma.kind != ObjectEnd && comma.kind != ArraySeparator && comma.kind != Comment {
        var ok := AddErrorAndRecover(MissingCommaOrBrace, comma, ObjectEnd);
        return Broken;
      }
      if comma.kind == Comment {
        comma := SkipCommentTokens();
      }
      step := if comma.kind == ObjectEnd then Done else More;
    }

    /** One turn of the member loop. */
    method ReadMember(last: string, start: nat) returns (step: Step, name: string)
      requires nodes != [] && current <= |text| && Top().data.Obj? && Top().start == start
      modifies `current, `nodes, `errors
      ensures nodes != [] && Stepped(step, old(Src().ReadMembers(current, Top().data.entries, last, start)))
      ensures step.More? ==> old(Src().ReadMembers(current, Top().data.entries, last, start))
                             == Src().ReadMembers(current, Top().data.entries, name, start)
      decreases |text| - current, 3
    {
      hide NextToken, Recover, DecodeString, Put, CStr, Source.ReadValue, Source.AfterMember;
      name := "";
      var tokenName := SkipCommentTokens();
      if tokenName.kind == ObjectEnd && last == "" {
        step := Done;
        return;
      }
      if tokenName.kind != StringToken {
        var ok := AddErrorAndRecover(MissingMemberName, tokenName, ObjectEnd);
        step := Broken;
        return;
      }
      var decoded := ComputeString(text, tokenName);
      if decoded.Bad? {
        var ok := AddError(decoded.problem, tokenName, Some(decoded.at));
        ok := RecoverFromError(ObjectEnd);
        step := Broken;
        return;
      }
      name := decoded.text;
      var colon := ReadToken();
      if colon.kind != MemberSeparator {
        var ok := AddErrorAndRecover(MissingColon, colon, ObjectEnd);
        step := Broken;
        return;
      }
      var ok := ReadChild(Name(CStr(name)));
      if !ok {
        ok := RecoverFromError(ObjectEnd);
        step := Broken;
        return;
      }
      step := FinishMember(name, start);
    }

    method ReadObject(tokenStart: Token) returns (ok: bool)
      requires nodes != [] && current <= |text|
      modifies `current, `nodes, `errors
      ensures nodes != [] && |nodes| == old(|nodes|) && Below() == old(Below())
      ensures match old(Src().ReadMembers(current, [], "", tokenStart.start))
              case Ok(v, q) => ok && current == q && errors == old(errors) && Top().(limit := q) == v
              case Fail(e, q) => !ok && current == q && errors == old(errors) + [e]
      decreases |text| - current, 4
    {
      hide Source.ReadMembers;
      ghost var src, goal := Src(), Src().ReadMembers(current, [], "", tokenStart.start);
      var name := "";
      SetTop(Value(Obj([]), tokenStart.start, 0));
      while true
        invariant nodes != [] && |nodes| == old(|nodes|) && Below() == old(Below()) && errors == old(errors)
        invariant old(current) <= current <= |text| && Src() == src
        invariant Top().data.Obj? && Top().start == tokenStart.start
        invariant src.ReadMembers(current, Top().data.entries, name, tokenStart.start) == goal
        decreases |text| - current
      {
        var step;
        step, name := ReadMember(name, tokenStart.start);
        if step != More {
          return step == Done;
        }
      }
    }

    method ReadArray(tokenStart: Token) returns (ok: bool)
      requires nodes != [] && current <= |text|
      modifies `current, `nodes, `errors
      ensures nodes != [] && |nodes| == old(|nodes|) && Below() == old(Below())
      ensures match old(Src().ReadArray(current, tokenStart.start))
              case Ok(v, q) => ok && current == q && errors == old(errors) && Top().(limit := q) == v
              case Fail(e, q) => !ok && current == q && errors == old(errors) + [e]
      decreases |text| - current, 3
    {
      hide NextToken, Recover, Put, JsonLexer.SkipSpaces, Source.ReadValue, Source.ReadMembers;
      ghost var src, goal := Src(), Src().ReadArray(current, tokenStart.start);
      SetTop(Value(Arr([]), tokenStart.start, 0));
      SkipSpaces();
      if CharAt(text, current) == ']' {
        var endArray := ReadToken();
        return true;
      }
      var index := 0;
      while true
        invariant nodes != [] && |nodes| == old(|nodes|) && Below() == old(Below()) && errors == old(errors)
        invariant old(current) <= current <= |text| && Src() == src
        invariant Top().data.Arr? && Top().start == tokenStart.start
        invariant src.ReadItems(current, Top().data.entries, index, tokenStart.start) == goal
        decreases |text| - current
      {
        ok := ReadChild(Index(index));
        index := index + 1;
        if !ok {
          ok := RecoverFromError(ArrayEnd);
          return;
        }
        var token := SkipCommentTokens();
        if token.kind != ArraySeparator && token.kind != ArrayEnd {
          ok := AddErrorAndRecover(MissingCommaOrBracket, token, ArrayEnd);
          return;
        }
        if token.kind == ArrayEnd {
          return true;
        }
      }
    }

    /** `parse`: text after the root value is skipped over, not rejected. */
    method Parse(document: string) returns (ok: bool, root: Value)
      modifies this
      ensures text == document && current <= |text| && nodes == [root]
      ensures ok == Source(document, scan).ReadValue(0).Ok?
      ensures match Source(document, scan).ReadValue(0)
              case Ok(v, _) => root == v && errors == []
              case Fail(e, _) => errors == [e]
    {
      text := document;
      current := 0;
      errors := [];
      nodes := [];
      nodes := nodes + [NULL_VALUE];
      ok := ReadValue();
      root := Top();
      var token := SkipCommentTokens();
    }
  }
}
