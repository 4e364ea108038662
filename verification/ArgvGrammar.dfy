/** What the scanner reads: a command line is words between runs of blanks, a word is bare and
    quoted pieces written side by side. */
module ArgvGrammar {
  import opened Argv
  import opened Containers
  import opened Wrappers

  // ---------------------------------------------------------------------------
  // The grammar
  // ---------------------------------------------------------------------------

  predicate AllValid(ts: seq<Token>) { forall t :: t in ts ==> t.Valid() }

  predicate AllBlank(ts: seq<Token>) { forall t :: t in ts ==> t.Blank() }

  function Chars(ts: seq<Token>): string {
    seq(|ts|, i requires 0 <= i < |ts| => ts[i].c)
  }

  datatype Piece = Bare(t: Token) | Quoted(q: char, inside: seq<Token>) {
    predicate Valid() {
      match this
      case Bare(t) => t.Valid() && (t.Plain? ==> !IsQuote(t.c) && !IsWhitespace(t.c))
      case Quoted(q, inside) => IsQuote(q) && AllValid(inside) && Plain(q) !in inside
    }
    function Tokens(): seq<Token> {
      match this
      case Bare(t) => [t]
      case Quoted(q, inside) => [Plain(q)] + inside + [Plain(q)]
    }
    function Meaning(): string {
      match this
      case Bare(t) => [t.c]
      case Quoted(_, inside) => Chars(inside)
    }
  }

  type Word = seq<Piece>

  predicate ValidWord(w: Word) { forall p :: p in w ==> p.Valid() }

  function WordTokens(w: Word): seq<Token> {
    if w == [] then [] else WordTokens(w[..|w| - 1]) + w[|w| - 1].Tokens()
  }

  function Meaning(w: Word): string {
    if w == [] then "" else Meaning(w[..|w| - 1]) + w[|w| - 1].Meaning()
  }

  /** A word and the blanks after it. */
  datatype Entry = Entry(word: Word, gap: seq<Token>) {
    predicate Valid() { word != [] && ValidWord(word) && AllBlank(gap) }
    predicate Separated() { Valid() && gap != [] }
    function Tokens(): seq<Token> { WordTokens(word) + gap }
  }

  predicate AllSeparated(es: seq<Entry>) { forall e :: e in es ==> e.Separated() }

  function EntriesTokens(es: seq<Entry>): seq<Token> {
    if es == [] then [] else EntriesTokens(es[..|es| - 1]) + es[|es| - 1].Tokens()
  }

  function Meanings(es: seq<Entry>): seq<string> {
    seq(|es|, i requires 0 <= i < |es| => Meaning(es[i].word))
  }

  /** Only the last word may do without blanks after it. */
  datatype Line = Line(lead: seq<Token>, entries: seq<Entry>) {
    predicate Valid() {
      && AllBlank(lead)
      && (entries != [] ==> AllSeparated(entries[..|entries| - 1]) && entries[|entries| - 1].Valid())
    }
    function Tokens(): seq<Token> { lead + EntriesTokens(entries) }
    function Args(): seq<string> { Meanings(entries) }
  }

  function Spelled(ts: seq<Token>): string {
    if ts == [] then "" else ts[0].Spelling() + Spelled(ts[1..])
  }

  /** Whether the text ends in a backslash that nothing follows. */
  predicate Dangling(text: string) {
    text != "" && (text == ['\\'] || Dangling(text[Width(text)..]))
  }

  /** A dangling backslash is taken for an escaped one. */
  function Completed(text: string): string {
    if Dangling(text) then text + ['\\'] else text
  }

  ghost predicate Reads(text: string, args: seq<string>) {
    exists line: Line :: line.Valid() && Spelled(line.Tokens()) == Completed(text) && line.Args() == args
  }

  // ---------------------------------------------------------------------------
  // Texts and tokens
  // ---------------------------------------------------------------------------

  lemma {:induction false} TokensOfSpelled(ts: seq<Token>)
    requires AllValid(ts)
    ensures Tokens(Spelled(ts)) == ts
  {
    if ts != [] {
      var text, rest := Spelled(ts), Spelled(ts[1..]);
      TokensOfSpelled(ts[1..]);
      FirstOfSpelled(ts[0], rest) by { assert ts[0] in ts; }
      assert text == ts[0].Spelling() + rest;
      assert [ts[0]] + ts[1..] == ts;
    }
  }

  lemma FirstOfSpelled(t: Token, rest: string)
    requires t.Valid()
    ensures var text := t.Spelling() + rest; First(text) == t && text[Width(text)..] == rest
  {
    var text := t.Spelling() + rest;
    assert text[0] == t.Spelling()[0];
    assert text[Width(text)..] == rest;
  }

  lemma {:induction false} SpelledOfTokens(text: string)
    ensures Spelled(Tokens(text)) == Completed(text)
  {
    if text != "" {
      hide First, Token.Spelling, Completed;
      var rest := text[Width(text)..];
      SpelledOfTokens(rest);
      assert Tokens(text)[1..] == Tokens(rest);
      CompletedStep(text);
    }
  }

  lemma CompletedStep(text: string)
    requires text != ""
    ensures Completed(text) == First(text).Spelling() + Completed(text[Width(text)..])
  {
    var n := Width(text);
    if text == ['\\'] {
      assert First(text).Spelling() == ['\\', '\\'] == text + ['\\'];
    } else {
      assert First(text).Spelling() == text[..n];
      assert text == text[..n] + text[n..];
      Associates(text[..n], text[n..], ['\\']);
    }
  }

  // ---------------------------------------------------------------------------
  // Every line of the grammar is read as its words
  // ---------------------------------------------------------------------------

  lemma {:induction false} ScanAppend(s: Scanner, a: seq<Token>, b: seq<Token>)
    ensures Scan(s, a + b) == Scan(Scan(s, a), b)
    decreases |a|
  {
    if a == [] {
      assert a + b == b;
    } else {
      ScanAppend(Step(s, a[0]), a[1..], b);
      assert (a + b)[1..] == a[1..] + b;
    }
  }

  lemma ScanOne(s: Scanner, a: seq<Token>, t: Token)
    ensures Scan(s, a + [t]) == Step(Scan(s, a), t)
  {
    ScanAppend(s, a, [t]);
    assert Scan(Scan(s, a), [t]) == Scan(Step(Scan(s, a), t), []);
  }

  lemma {:induction false} ScanQuoted(s: Scanner, ts: seq<Token>)
    requires s.state.InArgQuote? && IsQuote(s.quote) && AllValid(ts) && Plain(s.quote) !in ts
    ensures Scan(s, ts) == s.(arg := s.arg + Chars(ts))
    decreases |ts|
  {
    if ts == [] {
      assert s.arg + "" == s.arg;
    } else {
      assert Step(s, ts[0]) == s.(arg := s.arg + [ts[0].c]);
      ScanQuoted(s.(arg := s.arg + [ts[0].c]), ts[1..]);
      assert s.arg + [ts[0].c] + Chars(ts[1..]) == s.arg + Chars(ts);
    }
  }

  lemma {:induction false} ScanBlanks(s: Scanner, ts: seq<Token>)
    requires s.state.OutOfArg? && AllBlank(ts)
    ensures Scan(s, ts) == s
    decreases |ts|
  {
    if ts != [] {
      assert ts[0].Blank();
      ScanBlanks(s, ts[1..]);
    }
  }

  /** The argument so far, the leftovers of an earlier one not counted. */
  function Gathered(s: Scanner): string { if s.state.OutOfArg? then "" else s.arg }

  ghost predicate InWord(s: Scanner, arg: string, args: seq<string>) {
    s.state.InArg? && s.arg == arg && s.args == args
  }

  lemma ScanPiece(s: Scanner, p: Piece)
    requires !s.state.InArgQuote? && p.Valid()
    ensures InWord(Scan(s, p.Tokens()), Gathered(s) + p.Meaning(), s.args)
  {
    if p.Bare? {
      assert Scan(s, [p.t]) == Scan(Step(s, p.t), []);
      assert "" + [p.t.c] == [p.t.c];
    } else {
      hide Chars;
      var q := Plain(p.q);
      var inside := Step(s, q);
      assert inside.state.InArgQuote? && inside.quote == p.q && inside.arg == Gathered(s);
      ScanQuoted(inside, p.inside);
      ScanOne(s, [], q);
      ScanAppend(s, [q], p.inside);
      assert [] + [q] == [q];
      ScanOne(s, [q] + p.inside, q);
    }
  }

  lemma {:induction false} ScanWord(s: Scanner, w: Word)
    requires !s.state.InArgQuote? && w != [] && ValidWord(w)
    ensures InWord(Scan(s, WordTokens(w)), Gathered(s) + Meaning(w), s.args)
  {
    hide Scan, Piece.Tokens, Piece.Meaning, Piece.Valid;
    var n := |w| - 1;
    var before, last := w[..n], w[n];
    if before == [] {
      ScanPiece(s, last);
      OnePiece(w);
    } else {
      ScanWord(s, before);
      var r := Scan(s, WordTokens(before));
      ScanPiece(r, last);
      ScanAppend(s, WordTokens(before), last.Tokens());
      Associates(Gathered(s), Meaning(before), last.Meaning());
    }
  }

  lemma OnePiece(w: Word)
    requires |w| == 1
    ensures WordTokens(w) == w[0].Tokens() && Meaning(w) == w[0].Meaning()
  {
    hide Piece.Tokens, Piece.Meaning;
    assert WordTokens(w) == [] + w[0].Tokens() == w[0].Tokens();
    assert Meaning(w) == "" + w[0].Meaning() == w[0].Meaning();
  }

  lemma ScanSeparated(s: Scanner, e: Entry)
    requires s.state.OutOfArg? && e.Separated()
    ensures var r := Scan(s, e.Tokens()); r.state.OutOfArg? && r.args == s.args + [Meaning(e.word)]
  {
    ScanAppend(s, WordTokens(e.word), e.gap);
    ScanWord(s, e.word);
    var r := Scan(s, WordTokens(e.word));
    assert "" + Meaning(e.word) == Meaning(e.word);
    assert e.gap[0].Blank();
    ScanBlanks(Step(r, e.gap[0]), e.gap[1..]);
  }

  lemma {:induction false} ScanEntries(s: Scanner, es: seq<Entry>)
    requires s.state.OutOfArg? && AllSeparated(es)
    ensures var r := Scan(s, EntriesTokens(es)); r.state.OutOfArg? && r.args == s.args + Meanings(es)
  {
    if es == [] {
      NoEntries();
      assert Scan(s, []) == s && s.args + [] == s.args;
    } else {
      hide Scan, EntriesTokens, Meanings, Entry.Separated, Entry.Tokens;
      var n := |es| - 1;
      var before, last := es[..n], es[n];
      assert es == before + [last];
      EntriesLast(before, last);
      ScanEntries(s, before);
      ScanAppend(s, EntriesTokens(before), last.Tokens());
      ScanSeparated(Scan(s, EntriesTokens(before)), last);
      Associates(s.args, Meanings(before), [Meaning(last.word)]);
    }
  }

  lemma ScanLine(line: Line)
    requires line.Valid()
    ensures Finish(Scan(START, line.Tokens())) == Ok(line.Args())
  {
    hide Scan, EntriesTokens, Meanings, Entry.Valid;
    ScanAppend(START, line.lead, EntriesTokens(line.entries));
    ScanBlanks(START, line.lead);
    if line.entries == [] {
      NoEntries();
    } else {
      ScanAllEntries(START, line.entries);
      assert [] + Meanings(line.entries) == Meanings(line.entries);
    }
  }

  lemma NoEntries()
    ensures EntriesTokens([]) == [] && Meanings([]) == [] && Scan(START, []) == START
  {}

  lemma ScanAllEntries(s: Scanner, es: seq<Entry>)
    requires s.state.OutOfArg? && es != [] && AllSeparated(es[..|es| - 1]) && es[|es| - 1].Valid()
    ensures Finish(Scan(s, EntriesTokens(es))) == Ok(s.args + Meanings(es))
  {
    hide Scan, EntriesTokens, Meanings, AllSeparated, Entry.Valid, Entry.Tokens, Finish;
    var n := |es| - 1;
    var before, last := es[..n], es[n];
    assert es == before + [last];
    EntriesLast(before, last);
    ScanEntries(s, before);
    var r := Scan(s, EntriesTokens(before));
    ScanAppend(s, EntriesTokens(before), last.Tokens());
    ScanLast(r, last);
    Associates(s.args, Meanings(before), [Meaning(last.word)]);
  }

  lemma ScanLast(s: Scanner, e: Entry)
    requires s.state.OutOfArg? && e.Valid()
    ensures Finish(Scan(s, e.Tokens())) == Ok(s.args + [Meaning(e.word)])
  {
    if e.gap == [] {
      ScanWord(s, e.word);
      assert e.Tokens() == WordTokens(e.word);
      assert "" + Meaning(e.word) == Meaning(e.word);
    } else {
      ScanSeparated(s, e);
    }
  }

  // ---------------------------------------------------------------------------
  // Whatever the scanner accepts is a line of the grammar
  // ---------------------------------------------------------------------------

  datatype Quote = Closed | Open(q: char, inside: seq<Token>)

  /** A line cut short: its separated words, then the pieces of the word being read. */
  datatype Partial = Partial(lead: seq<Token>, entries: seq<Entry>, word: Word, quote: Quote) {
    predicate Valid() {
      && AllBlank(lead) && AllSeparated(entries) && ValidWord(word)
      && (quote.Open? ==> IsQuote(quote.q) && AllValid(quote.inside) && Plain(quote.q) !in quote.inside)
    }
    function Tokens(): seq<Token> {
      lead + EntriesTokens(entries) + WordTokens(word) + (if quote.Open? then [Plain(quote.q)] + quote.inside else [])
    }
    /** The scanner stands where the derivation does. */
    predicate Matches(s: Scanner) {
      && s.args == Meanings(entries)
      && s.state == (if quote.Open? then InArgQuote else if word == [] then OutOfArg else InArg)
      && (quote.Open? ==> s.quote == quote.q && s.arg == Meaning(word) + Chars(quote.inside))
      && (s.state.InArg? ==> s.arg == Meaning(word))
    }
  }

  /** The derivation of one more token: inside quotes, */
  function GrownInside(p: Partial, t: Token): Partial
    requires p.quote.Open?
  {
    if t == Plain(p.quote.q) then p.(word := p.word + [Quoted(p.quote.q, p.quote.inside)], quote := Closed)
    else p.(quote := Open(p.quote.q, p.quote.inside + [t]))
  }

  /** by a blank between words, */
  function GrownBlank(p: Partial, t: Token): Partial {
    if p.word != [] then p.(entries := p.entries + [Entry(p.word, [t])], word := [])
    else if p.entries == [] then p.(lead := p.lead + [t])
    else
      var n := |p.entries| - 1;
      p.(entries := p.entries[..n] + [p.entries[n].(gap := p.entries[n].gap + [t])])
  }

  /** and anywhere. */
  function Grown(p: Partial, t: Token): Partial {
    if p.quote.Open? then GrownInside(p, t)
    else if t.Plain? && IsQuote(t.c) then p.(quote := Open(t.c, []))
    else if t.Blank() then GrownBlank(p, t)
    else p.(word := p.word + [Bare(t)])
  }

  ghost predicate Derives(p: Partial, ts: seq<Token>) {
    p.Valid() && p.Tokens() == ts && p.Matches(Scan(START, ts))
  }

  lemma {:induction false} Derivation(ts: seq<Token>) returns (p: Partial)
    requires AllValid(ts)
    ensures Derives(p, ts)
  {
    if ts == [] {
      p := NothingRead();
    } else {
      hide *;
      var before := Derivation(ts[..|ts| - 1]) by { FewerTokens(ts); }
      p := DerivationStep(before, ts);
    }
  }

  lemma FewerTokens(ts: seq<Token>)
    requires ts != [] && AllValid(ts)
    ensures AllValid(ts[..|ts| - 1])
  {}

  lemma NothingRead() returns (p: Partial)
    ensures Derives(p, [])
  {
    p := Partial([], [], [], Closed);
    assert p.Tokens() == [];
  }

  lemma DerivationStep(p: Partial, ts: seq<Token>) returns (g: Partial)
    requires ts != [] && AllValid(ts) && Derives(p, ts[..|ts| - 1])
    ensures Derives(g, ts)
  {
    hide Grown, Partial.Valid, Partial.Tokens, Partial.Matches, Scan, Step;
    var n := |ts| - 1;
    g := Grown(p, ts[n]);
    assert ts == ts[..n] + [ts[n]];
    assert ts[n].Valid();
    ScanOne(START, ts[..n], ts[n]);
    GrownExtends(p, ts[n], Scan(START, ts[..n]));
  }

  ghost predicate Extends(p: Partial, t: Token, s: Scanner, g: Partial) {
    g.Valid() && g.Tokens() == p.Tokens() + [t] && g.Matches(Step(s, t))
  }

  lemma GrownExtends(p: Partial, t: Token, s: Scanner)
    requires p.Valid() && t.Valid() && p.Matches(s)
    ensures Extends(p, t, s, Grown(p, t))
  {
    hide Extends, Partial.Valid, Partial.Matches, GrownInside, GrownBlank;
    if p.quote.Open? {
      InsideExtends(p, t, s);
    } else if t.Plain? && IsQuote(t.c) {
      QuoteExtends(p, t, s);
    } else if t.Blank() {
      BlankExtends(p, t, s);
    } else {
      BareExtends(p, t, s);
    }
  }

  lemma EntriesLast(es: seq<Entry>, e: Entry)
    ensures EntriesTokens(es + [e]) == EntriesTokens(es) + e.Tokens()
    ensures Meanings(es + [e]) == Meanings(es) + [Meaning(e.word)]
  {
    assert (es + [e])[..|es|] == es;
  }

  lemma WordLast(w: Word, p: Piece)
    ensures WordTokens(w + [p]) == WordTokens(w) + p.Tokens()
    ensures Meaning(w + [p]) == Meaning(w) + p.Meaning()
  {
    assert (w + [p])[..|w|] == w;
  }

  lemma InsideExtends(p: Partial, t: Token, s: Scanner)
    requires p.Valid() && t.Valid() && p.Matches(s) && p.quote.Open?
    ensures Extends(p, t, s, GrownInside(p, t))
  {
    hide Extends, Partial.Valid, Partial.Matches;
    if t == Plain(p.quote.q) {
      CloseExtends(p, t, s);
    } else {
      MoreExtends(p, t, s);
    }
  }

  lemma CloseExtends(p: Partial, t: Token, s: Scanner)
    requires p.Valid() && p.Matches(s) && p.quote.Open? && t == Plain(p.quote.q)
    ensures Extends(p, t, s, p.(word := p.word + [Quoted(p.quote.q, p.quote.inside)], quote := Closed))
  {
    hide WordTokens, EntriesTokens, Meaning, Meanings;
    var g := p.(word := p.word + [Quoted(p.quote.q, p.quote.inside)], quote := Closed);
    WordLast(p.word, Quoted(p.quote.q, p.quote.inside));
    assert g.Tokens() == p.Tokens() + [t];
  }

  lemma MoreExtends(p: Partial, t: Token, s: Scanner)
    requires p.Valid() && t.Valid() && p.Matches(s) && p.quote.Open? && t != Plain(p.quote.q)
    ensures Extends(p, t, s, p.(quote := Open(p.quote.q, p.quote.inside + [t])))
  {
    hide WordTokens, EntriesTokens, Meaning, Meanings;
    var inside := p.quote.inside;
    assert Meaning(p.word) + Chars(inside) + [t.c] == Meaning(p.word) + Chars(inside + [t]);
    assert p.(quote := Open(p.quote.q, inside + [t])).Tokens() == p.Tokens() + [t];
  }

  lemma QuoteExtends(p: Partial, t: Token, s: Scanner)
    requires p.Valid() && p.Matches(s) && p.quote.Closed? && t.Plain? && IsQuote(t.c)
    ensures Extends(p, t, s, p.(quote := Open(t.c, [])))
  {
    hide WordTokens, EntriesTokens, Meanings;
    assert Meaning(p.word) + Chars([]) == Meaning(p.word);
    assert p.(quote := Open(t.c, [])).Tokens() == p.Tokens() + [t];
  }

  lemma BareExtends(p: Partial, t: Token, s: Scanner)
    requires p.Valid() && t.Valid() && p.Matches(s) && p.quote.Closed?
    requires Bare(t).Valid()
    ensures Extends(p, t, s, p.(word := p.word + [Bare(t)]))
  {
    hide WordTokens, EntriesTokens, Meanings;
    WordLast(p.word, Bare(t));
    assert "" + [t.c] == [t.c];
    assert p.(word := p.word + [Bare(t)]).Tokens() == p.Tokens() + [t];
  }

  lemma BlankExtends(p: Partial, t: Token, s: Scanner)
    requires p.Valid() && p.Matches(s) && p.quote.Closed? && t.Blank()
    ensures Extends(p, t, s, GrownBlank(p, t))
  {
    hide Extends, Partial.Valid, Partial.Matches, GrownBlank;
    if p.word != [] {
      WordEnds(p, t, s);
    } else if p.entries == [] {
      LeadExtends(p, t, s);
    } else {
      GapExtends(p, t, s);
    }
  }

  lemma WordEnds(p: Partial, t: Token, s: Scanner)
    requires p.Valid() && p.Matches(s) && p.quote.Closed? && t.Blank() && p.word != []
    ensures Extends(p, t, s, GrownBlank(p, t))
  {
    hide WordTokens, EntriesTokens, Meaning, Meanings;
    EntriesLast(p.entries, Entry(p.word, [t]));
    NoWord();
    assert GrownBlank(p, t).Tokens() == p.Tokens() + [t];
  }

  lemma LeadExtends(p: Partial, t: Token, s: Scanner)
    requires p.Valid() && p.Matches(s) && p.quote.Closed? && t.Blank() && p.word == [] && p.entries == []
    ensures Extends(p, t, s, GrownBlank(p, t))
  {
    hide WordTokens, EntriesTokens, Meaning, Meanings;
    NoWord();
    NoEntries();
    assert GrownBlank(p, t).Tokens() == p.Tokens() + [t];
  }

  lemma NoWord()
    ensures WordTokens([]) == [] && Meaning([]) == ""
  {}

  lemma GapExtends(p: Partial, t: Token, s: Scanner)
    requires p.Valid() && p.Matches(s) && p.quote.Closed? && t.Blank() && p.word == [] && p.entries != []
    ensures Extends(p, t, s, GrownBlank(p, t))
  {
    hide WordTokens, EntriesTokens, Meaning, Meanings;
    var n := |p.entries| - 1;
    var before, last := p.entries[..n], p.entries[n];
    assert last.Separated();
    assert p.entries == before + [last];
    EntriesLast(before, last);
    EntriesLast(before, last.(gap := last.gap + [t]));
    NoWord();
    assert GrownBlank(p, t).Tokens() == p.Tokens() + [t];
  }

  /** The line that a derivation outside quotes has read. */
  function Ended(p: Partial): Line {
    Line(p.lead, if p.word == [] then p.entries else p.entries + [Entry(p.word, [])])
  }

  lemma EndedLine(p: Partial)
    requires p.Valid() && p.quote.Closed?
    ensures Ended(p).Valid() && Ended(p).Tokens() == p.Tokens()
  {
    hide WordTokens, EntriesTokens;
    NoWord();
    if p.word != [] {
      EntriesLast(p.entries, Entry(p.word, []));
      assert (p.entries + [Entry(p.word, [])])[..|p.entries|] == p.entries;
    } else if p.entries != [] {
      assert p.entries[|p.entries| - 1].Separated();
    }
    assert Ended(p).Tokens() == p.Tokens();
  }

  // ---------------------------------------------------------------------------
  // The scanner and the grammar
  // ---------------------------------------------------------------------------

  /** Every line of the grammar is parsed into the meanings of its words. */
  lemma LineParsed(line: Line)
    requires line.Valid()
    ensures Parsed(Spelled(line.Tokens())) == Ok(line.Args())
  {
    hide Spelled, Tokens, Line.Args, Scan;
    LineTokensValid(line);
    TokensOfSpelled(line.Tokens());
    ScanLine(line);
  }

  lemma {:induction false} WordTokensValid(w: Word)
    requires ValidWord(w)
    ensures AllValid(WordTokens(w))
  {
    if w != [] {
      WordTokensValid(w[..|w| - 1]);
      assert w[|w| - 1].Valid();
    }
  }

  lemma {:induction false} EntriesTokensValid(es: seq<Entry>)
    requires forall e :: e in es ==> e.Valid()
    ensures AllValid(EntriesTokens(es))
  {
    if es != [] {
      hide WordTokens, ValidWord;
      var n := |es| - 1;
      EntriesTokensValid(es[..n]);
      assert es[n].Valid();
      WordTokensValid(es[n].word);
    }
  }

  lemma LineTokensValid(line: Line)
    requires line.Valid()
    ensures AllValid(line.Tokens())
  {
    hide EntriesTokens;
    var es := line.entries;
    forall e | e in es ensures e.Valid() {
      var n := |es| - 1;
      assert e in es[..n] || e == es[n];
    }
    EntriesTokensValid(es);
  }

  /** The parser accepts exactly the lines of the grammar, with the arguments the grammar gives:
      a text fails if and only if no words, quotes and blanks spell it. */
  lemma ParsedIff(text: string, args: seq<string>)
    ensures Parsed(text) == Ok(args) <==> Reads(text, args)
  {
    hide Spelled, Completed, Tokens, Scan, Line.Valid, Line.Args, Line.Tokens;
    SpelledOfTokens(text);
    var ts := Tokens(text);
    if Parsed(text) == Ok(args) {
      var line := Accepted(ts);
      LineParsed(line);
      TokensOfSpelled(ts);
      assert Parsed(Completed(text)) == Parsed(text);
    }
    if Reads(text, args) {
      var line: Line :| line.Valid() && Spelled(line.Tokens()) == Completed(text) && line.Args() == args;
      LineParsed(line);
      TokensOfSpelled(ts);
    }
  }

  lemma Accepted(ts: seq<Token>) returns (line: Line)
    requires AllValid(ts) && Finish(Scan(START, ts)).Ok?
    ensures line.Valid() && line.Tokens() == ts
  {
    hide Scan, Partial.Tokens, Partial.Valid, Line.Valid, Line.Tokens, Ended;
    var p := Derivation(ts);
    assert p.quote.Closed?;
    EndedLine(p);
    line := Ended(p);
  }

  // ---------------------------------------------------------------------------
  // Refused texts
  // ---------------------------------------------------------------------------

  /** The text ends inside a quote. */
  ghost predicate QuoteLeftOpen(text: string) {
    exists p: Partial :: p.Valid() && p.quote.Open? && Spelled(p.Tokens()) == Completed(text)
  }

  /** A text is refused if and only if a quote is still open at its end. */
  lemma RefusedIff(text: string)
    ensures Parsed(text).Err? <==> QuoteLeftOpen(text)
  {
    hide Spelled, Completed, Tokens, Scan, Partial.Valid, Partial.Tokens;
    SpelledOfTokens(text);
    var ts := Tokens(text);
    if Parsed(text).Err? {
      var p := Derivation(ts);
      assert p.quote.Open?;
    }
    if p: Partial :| p.Valid() && p.quote.Open? && Spelled(p.Tokens()) == Completed(text) {
      PartialTokensValid(p);
      TokensOfSpelled(p.Tokens());
      TokensOfSpelled(ts);
      ScanOpen(p);
    }
  }

  /** A derivation that stops inside a quote leaves the scanner there. */
  lemma ScanOpen(p: Partial)
    requires p.Valid() && p.quote.Open?
    ensures Scan(START, p.Tokens()).state.InArgQuote?
  {
    var line, word, quoted := p.lead + EntriesTokens(p.entries), WordTokens(p.word), [Plain(p.quote.q)] + p.quote.inside;
    ScanAppend(START, line + word, quoted);
    ScanAppend(START, line, word);
    ScanAppend(START, p.lead, EntriesTokens(p.entries));
    ScanBlanks(START, p.lead);
    ScanEntries(START, p.entries);
    var s := Scan(START, line);
    hide EntriesTokens, WordTokens, Scan;
    var u := Scan(s, word);
    if p.word == [] {
      NoWord();
      ScanNothing(s);
    } else {
      ScanWord(s, p.word);
    }
    OpenQuote(u, p.quote.q, p.quote.inside);
  }

  lemma ScanNothing(s: Scanner)
    ensures Scan(s, []) == s
  {}

  lemma OpenQuote(s: Scanner, q: char, inside: seq<Token>)
    requires !s.state.InArgQuote? && IsQuote(q) && AllValid(inside) && Plain(q) !in inside
    ensures Scan(s, [Plain(q)] + inside).state.InArgQuote?
  {
    ScanAppend(s, [Plain(q)], inside);
    ScanOne(s, [], Plain(q));
    assert [] + [Plain(q)] == [Plain(q)];
    ScanNothing(s);
    ScanQuoted(Step(s, Plain(q)), inside);
  }

  lemma PartialTokensValid(p: Partial)
    requires p.Valid()
    ensures AllValid(p.Tokens())
  {
    hide EntriesTokens, WordTokens;
    forall e | e in p.entries ensures e.Valid() {
      assert e.Separated();
    }
    EntriesTokensValid(p.entries);
    WordTokensValid(p.word);
  }

  /** A backslash that ends the text is read like two, so it is no error in itself: such a text is
      refused, as the code means it to be, if and only if a quote is open as well. */
  lemma DanglingRefusedIff(text: string)
    requires Dangling(text)
    ensures Parsed(text) == Parsed(text + ['\\'])
    ensures Parsed(text).Err? <==> QuoteLeftOpen(text)
  {
    RefusedIff(text);
    SpelledOfTokens(text);
    TokensOfSpelled(Tokens(text));
    hide Scan, Spelled, Tokens, Dangling;
  }

  /** A lone backslash is an argument. */
  lemma DanglingAccepted()
    ensures Dangling(['\\']) && Parsed(['\\']) == Ok([['\\']])
  {
    var text := ['\\'];
    assert First(text) == Escaped('\\') && text[Width(text)..] == "";
    assert Tokens(text) == [Escaped('\\')];
    ScanOne(START, [], Escaped('\\'));
    assert [] + [Escaped('\\')] == [Escaped('\\')];
    assert [] + [text] == [text];
  }

  // ---------------------------------------------------------------------------
  // Quoting
  // ---------------------------------------------------------------------------

  /** `arg` between double quotes, a backslash before each double quote and backslash in it. */
  function QuotedArg(arg: string): Word {
    [Quoted('\"', seq(|arg|, i requires 0 <= i < |arg| =>
      if arg[i] == '\"' || IsEscape(arg[i]) then Escaped(arg[i]) else Plain(arg[i])))]
  }

  /** The arguments, quoted, with a space between. */
  function QuotedLine(args: seq<string>): Line {
    Line([], seq(|args|, i requires 0 <= i < |args| =>
      Entry(QuotedArg(args[i]), if i + 1 < |args| then [Plain(' ')] else [])))
  }

  lemma QuotedArgMeaning(arg: string)
    ensures ValidWord(QuotedArg(arg)) && Meaning(QuotedArg(arg)) == arg
  {
    var w := QuotedArg(arg);
    OnePiece(w);
    assert w[0].Valid();
    assert Chars(w[0].inside) == arg;
  }

  /** Any arguments at all, empty ones and ones with blanks, quotes and backslashes among them,
      come back from the line that quotes them. */
  lemma QuotingRoundTrip(args: seq<string>)
    ensures Parsed(Spelled(QuotedLine(args).Tokens())) == Ok(args)
  {
    var line := QuotedLine(args);
    forall i | 0 <= i < |args|
      ensures line.entries[i].Valid() && Meaning(line.entries[i].word) == args[i]
      ensures i + 1 < |args| ==> line.entries[i].Separated()
    {
      hide QuotedArg, ValidWord, Meaning;
      QuotedArgMeaning(args[i]);
      assert Plain(' ').Blank();
    }
    hide Parsed, Spelled, Line.Tokens, QuotedLine, Entry.Separated, Entry.Valid, Meaning;
    LineParsed(line);
    assert line.Args() == args;
  }

  // ---------------------------------------------------------------------------
  // The special characters
  // ---------------------------------------------------------------------------

  /** What each character does between two letters: a blank or a tab separates them, either quote
      is left open, a backslash is gone, and any other stands for itself. */
  lemma CharacterBetween(ch: char)
    ensures Parsed(['a', ch, 'b']) ==
      if ch in {' ', '\t'} then Ok([['a'], ['b']])
      else if ch in {'\"', '\''} then Err(StartingQuoteHasNoEndingQuote)
      else if ch == '\\' then Ok([['a', 'b']])
      else Ok([['a', ch, 'b']])
  {
    var s0, text := START, ['a', ch, 'b'];
    NextToken(s0, text);
    var s1 := Step(s0, First(text));
    assert text[1..] == [ch, 'b'] && s1 == Scanner(InArg, '\0', ['a'], []);
    NextToken(s1, [ch, 'b']);
    OnlyArgument(['a', 'b']);
    OnlyArgument(['a', ch, 'b']);
    if ch != '\\' {
      var s2 := Step(s1, First([ch, 'b']));
      assert [ch, 'b'][1..] == ['b'];
      NextToken(s2, ['b']);
      assert ['b'][1..] == "" && ['a'] + [ch] + ['b'] == ['a', ch, 'b'];
      assert [['a']] + [['b']] == [['a'], ['b']];
      OnlyArgument(['a']);
      NoTokens(Step(s2, First(['b'])), "");
    } else {
      assert [ch, 'b'][2..] == "" && ['a'] + ['b'] == ['a', 'b'];
      NoTokens(Step(s1, First([ch, 'b'])), "");
    }
    hide Scan, Tokens;
  }

  lemma OnlyArgument(arg: string)
    ensures [] + [arg] == [arg]
  {}

  /** A quote is closed by its own kind only; the other kind stands for itself inside. */
  lemma QuotesPair(q: char, ch: char)
    requires q in {'\"', '\''} && ch != '\\'
    ensures Parsed([q, ch, q]) ==
      if ch == q then Err(StartingQuoteHasNoEndingQuote) else Ok([[ch]])
  {
    var text := [q, ch, q];
    NextToken(START, text);
    var s1 := Step(START, First(text));
    assert text[1..] == [ch, q] && s1 == Scanner(InArgQuote, q, "", []);
    NextToken(s1, [ch, q]);
    var s2 := Step(s1, First([ch, q]));
    assert [ch, q][1..] == [q] && "" + [ch] == [ch];
    NextToken(s2, [q]);
    assert [q][1..] == "";
    OnlyArgument([ch]);
    NoTokens(Step(s2, First([q])), "");
    hide Scan, Tokens;
  }
}
