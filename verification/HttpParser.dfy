/**
 The incremental request parser of lib/http/request_parser.cpp: a state machine fed one
 character at a time.  Version numbers are unbounded here; the source keeps them in `int`.
 */
module HttpParser {
  import opened Decimals

  datatype State =
    | MethodStart | Method | Uri
    | VersionH | VersionT1 | VersionT2 | VersionP | VersionSlash
    | MajorStart | Major | MinorStart | Minor | ExpectingNewline1
    | HeaderLineStart | HeaderLws | HeaderName | SpaceBeforeHeaderValue | HeaderValue
    | ExpectingNewline2 | ExpectingNewline3

  datatype Result = Good | Bad | Indeterminate

  datatype Header = Header(name: string, value: string)

  /** The contents of a `request`. */
  datatype Contents = Contents(httpMethod: string, uri: string, major: int, minor: int, headers: seq<Header>)

  // ----- character classes -----

  predicate IsChar(c: char) {
    c as int <= 127
  }

  predicate IsCtl(c: char) {
    c as int <= 31 || c as int == 127
  }

  predicate IsTSpecial(c: char) {
    c in "()<>@,;:\\\"/[]?={} \t"
  }

  predicate IsTokenChar(c: char) {
    IsChar(c) && !IsCtl(c) && !IsTSpecial(c)
  }

  predicate IsBlank(c: char) {
    c == ' ' || c == '\t'
  }

  // ----- one character -----

  /** The states in which `headers.back()` may be used. */
  predicate InHeader(st: State) {
    st == HeaderLws || st == HeaderName || st == SpaceBeforeHeaderValue || st == HeaderValue || st == ExpectingNewline2
  }

  predicate Ready(st: State, r: Contents) {
    InHeader(st) ==> r.headers != []
  }

  function PushName(r: Contents, c: char): Contents
    requires r.headers != []
  {
    var n := |r.headers| - 1;
    r.(headers := r.headers[n := r.headers[n].(name := r.headers[n].name + [c])])
  }

  function PushValue(r: Contents, c: char): Contents
    requires r.headers != []
  {
    var n := |r.headers| - 1;
    r.(headers := r.headers[n := r.headers[n].(value := r.headers[n].value + [c])])
  }

  /** The state and request after a character, and the result returned for it. */
  datatype Next = Next(state: State, contents: Contents, result: Result)

  function Step(st: State, r: Contents, c: char): (n: Next)
    requires Ready(st, r)
    ensures Ready(n.state, n.contents)
  {
    var bad := Next(st, r, Bad);
    match st
    case MethodStart => if IsTokenChar(c) then Next(Method, r.(httpMethod := r.httpMethod + [c]), Indeterminate) else bad
    case Method =>
      if c == ' ' then Next(Uri, r, Indeterminate)
      else if IsTokenChar(c) then Next(Method, r.(httpMethod := r.httpMethod + [c]), Indeterminate)
      else bad
    case Uri =>
      if c == ' ' then Next(VersionH, r, Indeterminate)
      else if IsCtl(c) then bad
      else Next(Uri, r.(uri := r.uri + [c]), Indeterminate)
    case VersionH => if c == 'H' then Next(VersionT1, r, Indeterminate) else bad
    case VersionT1 => if c == 'T' then Next(VersionT2, r, Indeterminate) else bad
    case VersionT2 => if c == 'T' then Next(VersionP, r, Indeterminate) else bad
    case VersionP => if c == 'P' then Next(VersionSlash, r, Indeterminate) else bad
    case VersionSlash => if c == '/' then Next(MajorStart, r.(major := 0, minor := 0), Indeterminate) else bad
    case MajorStart => if IsDigit(c) then Next(Major, r.(major := r.major * 10 + DigitValue(c)), Indeterminate) else bad
    case Major =>
      if c == '.' then Next(MinorStart, r, Indeterminate)
      else if IsDigit(c) then Next(Major, r.(major := r.major * 10 + DigitValue(c)), Indeterminate)
      else bad
    case MinorStart => if IsDigit(c) then Next(Minor, r.(minor := r.minor * 10 + DigitValue(c)), Indeterminate) else bad
    case Minor =>
      if c == '\r' then Next(ExpectingNewline1, r, Indeterminate)
      else if IsDigit(c) then Next(Minor, r.(minor := r.minor * 10 + DigitValue(c)), Indeterminate)
      else bad
    case ExpectingNewline1 => if c == '\n' then Next(HeaderLineStart, r, Indeterminate) else bad
    case HeaderLineStart =>
      if c == '\r' then Next(ExpectingNewline3, r, Indeterminate)
      else if r.headers != [] && IsBlank(c) then Next(HeaderLws, r, Indeterminate)
      else if IsTokenChar(c) then Next(HeaderName, r.(headers := r.headers + [Header([c], "")]), Indeterminate)
      else bad
    case HeaderLws =>
      if c == '\r' then Next(ExpectingNewline2, r, Indeterminate)
      else if IsBlank(c) then Next(HeaderLws, r, Indeterminate)
      else if IsCtl(c) then bad
      else Next(HeaderValue, PushValue(r, c), Indeterminate)
    case HeaderName =>
      if c == ':' then Next(SpaceBeforeHeaderValue, r, Indeterminate)
      else if IsTokenChar(c) then Next(HeaderName, PushName(r, c), Indeterminate)
      else bad
    case SpaceBeforeHeaderValue => if c == ' ' then Next(HeaderValue, r, Indeterminate) else bad
    case HeaderValue =>
      if c == '\r' then Next(ExpectingNewline2, r, Indeterminate)
      else if IsCtl(c) then bad
      else Next(HeaderValue, PushValue(r, c), Indeterminate)
    case ExpectingNewline2 => if c == '\n' then Next(HeaderLineStart, r, Indeterminate) else bad
    case ExpectingNewline3 => if c == '\n' then Next(st, r, Good) else bad
  }

  // ----- a range of characters -----

  datatype Parse = Parse(result: Result, state: State, contents: Contents, consumed: nat)

  function Later(p: Parse, n: nat): Parse {
    p.(consumed := p.consumed + n)
  }

  function Run(st: State, r: Contents, s: string): (p: Parse)
    requires Ready(st, r)
    ensures Ready(p.state, p.contents) && p.consumed <= |s|
    ensures p.result == Indeterminate ==> p.consumed == |s|
    decreases |s|
  {
    if s == [] then Parse(Indeterminate, st, r, 0)
    else
      var n := Step(st, r, s[0]);
      if n.result != Indeterminate then Parse(n.result, n.state, n.contents, 1)
      else Later(Run(n.state, n.contents, s[1..]), 1)
  }

  /** What the connection does with arriving buffers: it goes on while the result is open. */
  function RunChunks(st: State, r: Contents, chunks: seq<string>): (p: Parse)
    requires Ready(st, r)
    ensures Ready(p.state, p.contents)
    decreases |chunks|
  {
    if chunks == [] then Parse(Indeterminate, st, r, 0)
    else
      var p := Run(st, r, chunks[0]);
      if p.result != Indeterminate then p
      else Later(RunChunks(p.state, p.contents, chunks[1..]), p.consumed)
  }

  function Joined(chunks: seq<string>): string {
    if chunks == [] then [] else chunks[0] + Joined(chunks[1..])
  }

  lemma {:induction false} RunInTwo(st: State, r: Contents, a: string, b: string)
    requires Ready(st, r)
    ensures var p := Run(st, r, a);
            Run(st, r, a + b) == if p.result != Indeterminate then p else Later(Run(p.state, p.contents, b), |a|)
    decreases |a|
  {
    hide Step, Ready;
    if a == [] {
      assert a + b == b;
    } else {
      assert (a + b)[0] == a[0] && (a + b)[1..] == a[1..] + b;
      var n := Step(st, r, a[0]);
      if n.result == Indeterminate {
        RunInTwo(n.state, n.contents, a[1..], b);
      }
    }
  }

  /** However the bytes are cut into buffers, result, request and consumed length are the same. */
  lemma {:induction false} ChunkingDoesNotMatter(st: State, r: Contents, chunks: seq<string>)
    requires Ready(st, r)
    ensures RunChunks(st, r, chunks) == Run(st, r, Joined(chunks))
    decreases |chunks|
  {
    if chunks != [] {
      RunInTwo(st, r, chunks[0], Joined(chunks[1..]));
      var p := Run(st, r, chunks[0]);
      if p.result == Indeterminate {
        ChunkingDoesNotMatter(p.state, p.contents, chunks[1..]);
      }
    }
  }

  // ----- the objects -----

  class Request {
    var httpMethod: string
    var uri: string
    var major: int
    var minor: int
    var headers: seq<Header>

    constructor (major: int, minor: int)
      ensures Value() == Contents("", "", major, minor, [])
    {
      httpMethod, uri, headers := "", "", [];
      this.major, this.minor := major, minor;
    }

    ghost function Value(): Contents
      reads this
    {
      Contents(httpMethod, uri, major, minor, headers)
    }

    method PushBackName(c: char)
      requires headers != []
      modifies `headers
      ensures Value() == PushName(old(Value()), c)
    {
      var n := |headers| - 1;
      headers := headers[n := headers[n].(name := headers[n].name + [c])];
    }

    method PushBackValue(c: char)
      requires headers != []
      modifies `headers
      ensures Value() == PushValue(old(Value()), c)
    {
      var n := |headers| - 1;
      headers := headers[n := headers[n].(value := headers[n].value + [c])];
    }
  }

  class RequestParser {
    var state: State

    constructor ()
      ensures state == MethodStart
    {
      state := MethodStart;
    }

    method Reset()
      modifies this
      ensures state == MethodStart
    {
      state := MethodStart;
    }

    method Consume(req: Request, input: char) returns (result: Result)
      requires Ready(state, req.Value())
      modifies this, req
      ensures Next(state, req.Value(), result) == Step(old(state), old(req.Value()), input)
    {
      result := Indeterminate;
      match state {
        case MethodStart =>
          if !IsTokenChar(input) { return Bad; }
          state := Method;
          req.httpMethod := req.httpMethod + [input];
        case Method =>
          if input == ' ' { state := Uri; }
          else if !IsTokenChar(input) { return Bad; }
          else { req.httpMethod := req.httpMethod + [input]; }
        case Uri =>
          if input == ' ' { state := VersionH; }
          else if IsCtl(input) { return Bad; }
          else { req.uri := req.uri + [input]; }
        case VersionH =>
          if input != 'H' { return Bad; }
          state := VersionT1;
        case VersionT1 =>
          if input != 'T' { return Bad; }
          state := VersionT2;
        case VersionT2 =>
          if input != 'T' { return Bad; }
          state := VersionP;
        case VersionP =>
          if input != 'P' { return Bad; }
          state := VersionSlash;
        case VersionSlash =>
          if input != '/' { return Bad; }
          req.major := 0;
          req.minor := 0;
          state := MajorStart;
        case MajorStart =>
          if !IsDigit(input) { return Bad; }
          req.major := req.major * 10 + input as int - '0' as int;
          state := Major;
        case Major =>
          if input == '.' { state := MinorStart; }
          else if IsDigit(input) { req.major := req.major * 10 + input as int - '0' as int; }
          else { return Bad; }
        case MinorStart =>
          if !IsDigit(input) { return Bad; }
          req.minor := req.minor * 10 + input as int - '0' as int;
          state := Minor;
        case Minor =>
          if input == '\r' { state := ExpectingNewline1; }
          else if IsDigit(input) { req.minor := req.minor * 10 + input as int - '0' as int; }
          else { return Bad; }
        case ExpectingNewline1 =>
          if input != '\n' { return Bad; }
          state := HeaderLineStart;
        case HeaderLineStart =>
          if input == '\r' { state := ExpectingNewline3; }
          else if req.headers != [] && IsBlank(input) { state := HeaderLws; }
          else if !IsTokenChar(input) { return Bad; }
          else {
            req.headers := req.headers + [Header([input], "")];
            state := HeaderName;
          }
        case HeaderLws =>
          if input == '\r' { state := ExpectingNewline2; }
          else if IsBlank(input) { }
          else if IsCtl(input) { return Bad; }
          else {
            state := HeaderValue;
            req.PushBackValue(input);
          }
        case HeaderName =>
          if input == ':' { state := SpaceBeforeHeaderValue; }
          else if !IsTokenChar(input) { return Bad; }
          else { req.PushBackName(input); }
        case SpaceBeforeHeaderValue =>
          if input != ' ' { return Bad; }
          state := HeaderValue;
        case HeaderValue =>
          if input == '\r' { state := ExpectingNewline2; }
          else if IsCtl(input) { return Bad; }
          else { req.PushBackValue(input); }
        case ExpectingNewline2 =>
          if input != '\n' { return Bad; }
          state := HeaderLineStart;
        case ExpectingNewline3 =>
          return if input == '\n' then Good else Bad;
      }
    }

    /** `parse` over one buffer; `next` is the position the source returns as an iterator. */
    method ParseBuffer(req: Request, buffer: string) returns (result: Result, next: nat)
      requires Ready(state, req.Value())
      modifies this, req
      ensures Parse(result, state, req.Value(), next) == Run(old(state), old(req.Value()), buffer)
    {
      next := 0;
      while next != |buffer|
        invariant 0 <= next <= |buffer| && Ready(state, req.Value())
        invariant Later(Run(state, req.Value(), buffer[next..]), next) == Run(old(state), old(req.Value()), buffer)
        decreases |buffer| - next
      {
        assert buffer[next..][0] == buffer[next] && buffer[next..][1..] == buffer[next + 1..];
        result := Consume(req, buffer[next]);
        next := next + 1;
        if result == Good || result == Bad {
          return;
        }
      }
      result := Indeterminate;
    }

    /** What the connection does: buffer after buffer goes to the same parser and request while the answer is open. */
    method ParseBuffers(req: Request, buffers: seq<string>) returns (result: Result, consumed: nat)
      requires Ready(state, req.Value())
      modifies this, req
      ensures Parse(result, state, req.Value(), consumed) == Run(old(state), old(req.Value()), Joined(buffers))
    {
      ChunkingDoesNotMatter(state, req.Value(), buffers);
      hide Run, Step, Joined;
      ghost var goal := RunChunks(state, req.Value(), buffers);
      result, consumed := Indeterminate, 0;
      var i := 0;
      assert buffers[0..] == buffers;
      while i < |buffers|
        invariant 0 <= i <= |buffers| && Ready(state, req.Value()) && result == Indeterminate
        invariant Later(RunChunks(state, req.Value(), buffers[i..]), consumed) == goal
      {
        assert buffers[i..][0] == buffers[i] && buffers[i..][1..] == buffers[i + 1..];
        var next;
        result, next := ParseBuffer(req, buffers[i]);
        consumed := consumed + next;
        if result != Indeterminate {
          return;
        }
        i := i + 1;
      }
    }
  }
}
