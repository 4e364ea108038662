/** Splitting a command line into arguments: the character scanner, proved against a grammar of
    quoted and escaped words. */
module Argv {
  import opened Wrappers

  datatype Error = StartingQuoteHasNoEndingQuote

  predicate IsQuote(c: char) { c == '\"' || c == '\'' }
  predicate IsEscape(c: char) { c == '\\' }
  predicate IsWhitespace(c: char) { c == ' ' || c == '\t' }

  // ---------------------------------------------------------------------------
  // The scanner
  // ---------------------------------------------------------------------------

  /** A character of the line: one that stands for itself, or one behind a backslash. */
  datatype Token = Plain(c: char) | Escaped(c: char) {
    predicate Valid() { Plain? ==> !IsEscape(c) }
    predicate Blank() { Plain? && IsWhitespace(c) }
    function Spelling(): string { if Plain? then [c] else ['\\', c] }
  }

  /** The characters the first token takes: a backslash takes the next one with it. */
  function Width(text: string): (n: nat)
    requires text != ""
    ensures 0 < n <= |text|
  {
    if IsEscape(text[0]) && |text| > 1 then 2 else 1
  }

  /** A backslash that ends the text stands for itself. */
  function First(text: string): (t: Token)
    requires text != ""
    ensures t.Valid()
  {
    var c := text[Width(text) - 1];
    if IsEscape(text[0]) then Escaped(c) else Plain(c)
  }

  function Tokens(text: string): (ts: seq<Token>)
    ensures forall t :: t in ts ==> t.Valid()
  {
    if text == "" then [] else [First(text)] + Tokens(text[Width(text)..])
  }

  datatype State = OutOfArg | InArg | InArgQuote

  datatype Scanner = Scanner(state: State, quote: char, arg: string, args: seq<string>)

  const START := Scanner(OutOfArg, '\0', "", [])

  function Step(s: Scanner, t: Token): Scanner {
    if t.Plain? && IsQuote(t.c) then
      match s.state
      case OutOfArg => s.(arg := "", state := InArgQuote, quote := t.c)
      case InArg => s.(state := InArgQuote, quote := t.c)
      case InArgQuote => if t.c == s.quote then s.(state := InArg) else s.(arg := s.arg + [t.c])
    else if t.Blank() then
      match s.state
      case InArg => s.(args := s.args + [s.arg], state := OutOfArg)
      case InArgQuote => s.(arg := s.arg + [t.c])
      case OutOfArg => s
    else if s.state.OutOfArg? then s.(arg := [t.c], state := InArg)
    else s.(arg := s.arg + [t.c])
  }

  function Scan(s: Scanner, ts: seq<Token>): Scanner
    decreases |ts|
  {
    if ts == [] then s else Scan(Step(s, ts[0]), ts[1..])
  }

  function Finish(s: Scanner): Result<seq<string>, Error> {
    match s.state
    case InArg => Ok(s.args + [s.arg])
    case InArgQuote => Err(StartingQuoteHasNoEndingQuote)
    case OutOfArg => Ok(s.args)
  }

  function Parsed(text: string): Result<seq<string>, Error> {
    Finish(Scan(START, Tokens(text)))
  }

  method Parse(text: string) returns (r: Result<seq<string>, Error>)
    ensures r == Parsed(text)
  {
    hide Scan, Tokens;
    var args: seq<string>, arg: string := [], "";
    var state, quote := OutOfArg, '\0';
    var i := 0;
    assert text[0..] == text;
    while i < |text|
      invariant i <= |text|
      invariant Scan(START, Tokens(text)) == Scan(Scanner(state, quote, arg, args), Tokens(text[i..]))
    {
      ghost var before, rest := Scanner(state, quote, arg, args), text[i..];
      var c := text[i];
      i := i + 1;
      if IsQuote(c) {
        match state
        case OutOfArg => arg := ""; state := InArgQuote; quote := c;
        case InArg => state := InArgQuote; quote := c;
        case InArgQuote => if c == quote { state := InArg; } else { arg := arg + [c]; }
      } else if IsWhitespace(c) {
        match state
        case InArg => args := args + [arg]; state := OutOfArg;
        case InArgQuote => arg := arg + [c];
        case OutOfArg =>
      } else if IsEscape(c) {
        if state.OutOfArg? {
          arg := "";
          state := InArg;
        }
        if i < |text| {
          c := text[i];
          i := i + 1;
        }
        arg := arg + [c];
      } else {
        match state
        case InArg => arg := arg + [c];
        case InArgQuote => arg := arg + [c];
        case OutOfArg => arg := ""; arg := arg + [c]; state := InArg;
      }
      NextToken(before, rest);
      assert "" + [c] == [c];
      assert Scanner(state, quote, arg, args) == Step(before, First(rest));
      assert text[i..] == rest[Width(rest)..];
    }
    NoTokens(Scanner(state, quote, arg, args), text[i..]);
    match state
    case InArg => return Ok(args + [arg]);
    case InArgQuote => return Err(StartingQuoteHasNoEndingQuote);
    case OutOfArg => return Ok(args);
  }

  lemma NoTokens(s: Scanner, text: string)
    requires text == ""
    ensures Scan(s, Tokens(text)) == s
  {}

  lemma NextToken(s: Scanner, text: string)
    requires text != ""
    ensures Scan(s, Tokens(text)) == Scan(Step(s, First(text)), Tokens(text[Width(text)..]))
  {
    assert Tokens(text)[1..] == Tokens(text[Width(text)..]);
  }
}
