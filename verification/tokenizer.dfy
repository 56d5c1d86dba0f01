/** The launch-command tokeniser (parseCommandWithQuotes) and the two path
    quoting functions that feed it: the shipped `%q`-based one and a
    corrected one whose output the tokeniser always reads back unchanged. */
module Tokenizer {
  import opened Text

  // ---------------------------------------------------------------------
  // The tokeniser state machine

  /** Tokens emitted so far, the token being built, and the open quote. */
  datatype TokState = TokState(args: seq<string>, cur: string, inQuote: bool, quoteChar: char)

  const NoQuote: char := 0 as char
  const Start: TokState := TokState([], [], false, NoQuote)

  predicate IsQuote(c: char) {
    c == '"' || c == '\''
  }

  /** One character: a quote opens a span, closes the span it opened, or is
      literal inside a span opened by the other quote; an unquoted space ends
      a non-empty token; everything else extends the token. */
  function Step(st: TokState, c: char): TokState {
    if IsQuote(c) then
      if !st.inQuote then st.(inQuote := true, quoteChar := c)
      else if c == st.quoteChar then st.(inQuote := false, quoteChar := NoQuote)
      else st.(cur := st.cur + [c])
    else if c == ' ' && !st.inQuote then
      if |st.cur| > 0 then st.(args := st.args + [st.cur], cur := []) else st
    else st.(cur := st.cur + [c])
  }

  function Run(st: TokState, s: string): TokState
    decreases |s|
  {
    if s == [] then st else Run(Step(st, s[0]), s[1..])
  }

  /** End of input: a non-empty pending token is emitted, even inside an
      unterminated span. */
  function Finish(st: TokState): seq<string> {
    if |st.cur| > 0 then st.args + [st.cur] else st.args
  }

  /** parseCommandWithQuotes */
  function ParseCommandWithQuotes(cmd: string): (r: seq<string>)
    ensures forall k :: 0 <= k < |r| ==> r[k] != []
  {
    RunKeepsTokensNonEmpty(Start, cmd);
    Finish(Run(Start, cmd))
  }

  predicate TokensNonEmpty(st: TokState) {
    forall k :: 0 <= k < |st.args| ==> st.args[k] != []
  }

  lemma {:induction false} RunKeepsTokensNonEmpty(st: TokState, s: string)
    requires TokensNonEmpty(st)
    ensures TokensNonEmpty(Run(st, s))
    decreases |s|
  {
    if s != [] {
      RunKeepsTokensNonEmpty(Step(st, s[0]), s[1..]);
    }
  }

  lemma {:induction false} RunAppend(st: TokState, a: string, b: string)
    ensures Run(st, a + b) == Run(Run(st, a), b)
    decreases |a|
  {
    if a == [] {
      assert a + b == b;
    } else {
      assert (a + b)[0] == a[0];
      assert (a + b)[1..] == a[1..] + b;
      RunAppend(Step(st, a[0]), a[1..], b);
    }
  }

  /** Outside any span, with no pending quote. */
  predicate Unquoted(st: TokState) {
    !st.inQuote && st.quoteChar == NoQuote
  }

  predicate QuoteFree(s: string) {
    forall k :: 0 <= k < |s| ==> !IsQuote(s[k])
  }

  /** A quote-free, space-free word extends the current token. */
  lemma {:induction false} RunWord(st: TokState, w: string)
    requires Unquoted(st)
    requires QuoteFree(w) && ' ' !in w
    ensures Run(st, w) == st.(cur := st.cur + w)
    decreases |w|
  {
    if w == [] {
      assert st.cur + w == st.cur;
    } else {
      assert st.cur + [w[0]] + w[1..] == st.cur + w;
      RunWord(Step(st, w[0]), w[1..]);
    }
  }

  /** Inside a span, every character other than the span's quote is literal
      (spaces and the other quote included). */
  lemma {:induction false} RunInsideSpan(st: TokState, p: string)
    requires st.inQuote
    requires st.quoteChar !in p
    ensures Run(st, p) == st.(cur := st.cur + p)
    decreases |p|
  {
    if p == [] {
      assert st.cur + p == st.cur;
    } else {
      assert st.cur + [p[0]] + p[1..] == st.cur + p;
      RunInsideSpan(Step(st, p[0]), p[1..]);
    }
  }

  /** A span opened and closed by the same quote adds its contents to the
      current token and drops both quotes. */
  lemma RunSpan(st: TokState, q: char, p: string)
    requires Unquoted(st) && IsQuote(q) && q !in p
    ensures Run(st, [q] + p + [q]) == st.(cur := st.cur + p)
  {
    var open := Step(st, q);
    assert open == st.(inQuote := true, quoteChar := q);
    RunAppend(st, [q], p);
    RunAppend(st, [q] + p, [q]);
    RunInsideSpan(open, p);
  }

  /** An unterminated span runs to the end of input. */
  lemma RunUnterminated(st: TokState, q: char, p: string)
    requires Unquoted(st) && IsQuote(q) && q !in p
    ensures Run(st, [q] + p) == st.(cur := st.cur + p, inQuote := true, quoteChar := q)
  {
    RunAppend(st, [q], p);
    RunInsideSpan(Step(st, q), p);
  }

  /** Without quote characters, idle is kept. */
  lemma {:induction false} RunQuoteFreeIdle(st: TokState, s: string)
    requires Unquoted(st) && QuoteFree(s)
    ensures Unquoted(Run(st, s))
    decreases |s|
  {
    if s != [] {
      RunQuoteFreeIdle(Step(st, s[0]), s[1..]);
    }
  }

  /** An unquoted space ends the pending token. */
  lemma RunSpace(st: TokState)
    requires Unquoted(st)
    ensures Run(st, " ") == TokState(Finish(st), [], false, NoQuote)
  {
  }

  // ---------------------------------------------------------------------
  // A reference tokenisation for quote-free commands

  /** The space-separated fields of a quote-free string: strings.Split on
      ' ' with the empty fields dropped. */
  function Words(s: string): seq<string> {
    NonEmpty(Split(s, ' '))
  }

  function NonEmpty(parts: seq<string>): (r: seq<string>)
    ensures forall k :: 0 <= k < |r| ==> r[k] != []
  {
    if parts == [] then []
    else if parts[0] == [] then NonEmpty(parts[1..])
    else [parts[0]] + NonEmpty(parts[1..])
  }

  /** On quote-free input the tokeniser is exactly "split on spaces and drop
      empty fields". */
  lemma QuoteFreeIsWords(s: string)
    requires QuoteFree(s)
    ensures ParseCommandWithQuotes(s) == Words(s)
  {
    var parts := Split(s, ' ');
    QuoteFreeRun(Start, s);
    assert [Start.cur + parts[0]] + parts[1..] == parts by {
      assert Start.cur + parts[0] == parts[0];
    }
  }

  /** The reference tokens of a quote-free rest of input, given the token
      being built and the tokens already emitted. */
  function Pending(st: TokState, s: string): seq<string> {
    st.args + NonEmpty([st.cur + Split(s, ' ')[0]] + Split(s, ' ')[1..])
  }

  lemma {:induction false} QuoteFreeRun(st: TokState, s: string)
    requires Unquoted(st) && QuoteFree(s) && ' ' !in st.cur
    ensures Finish(Run(st, s)) == st.args + NonEmpty([st.cur + Split(s, ' ')[0]] + Split(s, ' ')[1..])
    decreases |s|
  {
    if s == [] {
      QuoteFreeEnd(st);
    } else {
      var nx := Step(st, s[0]);
      assert Run(st, s) == Run(nx, s[1..]);
      QuoteFreeRun(nx, s[1..]);
      if s[0] == ' ' {
        QuoteFreeSpace(st, s);
      } else {
        QuoteFreeChar(st, s);
      }
    }
  }

  /** At the end of input the pending token, if any, is emitted. */
  lemma QuoteFreeEnd(st: TokState)
    ensures Finish(st) == Pending(st, [])
  {
    var parts := Split([], ' ');
    assert parts == [[]];
    assert [st.cur + parts[0]] + parts[1..] == [st.cur] by {
      assert st.cur + parts[0] == st.cur;
      assert parts[1..] == [];
    }
    if st.cur == [] {
      assert NonEmpty([st.cur]) == [];
    } else {
      assert NonEmpty([st.cur]) == [st.cur] + NonEmpty([]);
    }
  }

  /** An unquoted space ends the pending token, and the reference fields
      start a new one. */
  lemma QuoteFreeSpace(st: TokState, s: string)
    requires Unquoted(st) && s != [] && s[0] == ' '
    ensures Pending(Step(st, s[0]), s[1..]) == Pending(st, s)
  {
    var nx := Step(st, s[0]);
    var parts := Split(s, ' ');
    var rest := Split(s[1..], ' ');
    assert parts == [[]] + rest;
    assert parts[0] == [] && parts[1..] == rest;
    assert [st.cur + parts[0]] + parts[1..] == [st.cur] + rest by {
      assert st.cur + parts[0] == st.cur;
    }
    assert rest == [rest[0]] + rest[1..];
    assert [nx.cur + rest[0]] + rest[1..] == rest by {
      assert nx.cur == [];
      assert nx.cur + rest[0] == rest[0];
    }
    if |st.cur| > 0 {
      assert NonEmpty([st.cur] + rest) == [st.cur] + NonEmpty(rest);
    } else {
      assert NonEmpty([st.cur] + rest) == NonEmpty(rest);
    }
  }

  /** Any other character extends the pending token and the first field. */
  lemma QuoteFreeChar(st: TokState, s: string)
    requires Unquoted(st) && s != [] && s[0] != ' ' && !IsQuote(s[0]) && ' ' !in st.cur
    ensures Pending(Step(st, s[0]), s[1..]) == Pending(st, s)
    ensures ' ' !in Step(st, s[0]).cur
  {
    var nx := Step(st, s[0]);
    var parts := Split(s, ' ');
    var rest := Split(s[1..], ' ');
    assert parts == [[s[0]] + rest[0]] + rest[1..];
    assert nx == st.(cur := st.cur + [s[0]]);
    assert nx.cur + rest[0] == st.cur + parts[0];
  }

  lemma {:induction false} NonEmptyAppend(x: seq<string>, y: seq<string>)
    ensures NonEmpty(x + y) == NonEmpty(x) + NonEmpty(y)
    decreases |x|
  {
    if x == [] {
      assert x + y == y;
    } else {
      assert (x + y)[0] == x[0];
      assert (x + y)[1..] == x[1..] + y;
      NonEmptyAppend(x[1..], y);
    }
  }

  /** The fields of two strings joined by a space are the fields of each. */
  lemma WordsConcat(a: string, b: string)
    ensures Words(a + " " + b) == Words(a) + Words(b)
  {
    SplitConcat(a, b, ' ');
    NonEmptyAppend(Split(a, ' '), Split(b, ' '));
  }

  /** Tokens already emitted are never revisited: running from a state with
      emitted tokens X is running from no tokens and putting X in front. */
  lemma {:induction false} RunKeepsArgs(st: TokState, s: string)
    ensures Run(st, s).args == st.args + Run(st.(args := []), s).args
    ensures Run(st, s) == Run(st.(args := []), s).(args := Run(st, s).args)
    decreases |s|
  {
    var st0 := st.(args := []);
    if s == [] {
      assert st.args + [] == st.args;
    } else {
      var n := Step(st, s[0]);
      var n0 := Step(st0, s[0]);
      assert n.args == st.args + n0.args;
      assert n.(args := []) == n0.(args := []);
      RunKeepsArgs(n, s[1..]);
      RunKeepsArgs(n0, s[1..]);
    }
  }

  /** From an idle state with nothing pending, the rest of the line adds
      exactly the tokens it would produce on its own. */
  lemma FinishFrom(xs: seq<string>, s: string)
    ensures Finish(Run(TokState(xs, [], false, NoQuote), s)) == xs + ParseCommandWithQuotes(s)
  {
    RunKeepsArgs(TokState(xs, [], false, NoQuote), s);
  }

  /** A word followed by a space becomes one token. */
  lemma WordSpace(st: TokState, w: string)
    requires Unquoted(st) && st.cur == []
    requires w != [] && QuoteFree(w) && ' ' !in w
    ensures Run(st, w + " ") == TokState(st.args + [w], [], false, NoQuote)
  {
    RunAppend(st, w, " ");
    RunWord(st, w);
    assert st.cur + w == w;
  }

  /** Quote-free text followed by a space contributes its fields. */
  lemma WordsSpace(st: TokState, a: string)
    requires Unquoted(st) && st.cur == []
    requires QuoteFree(a)
    ensures Run(st, a + " ") == TokState(st.args + Words(a), [], false, NoQuote)
  {
    RunAppend(st, a, " ");
    RunQuoteFreeIdle(st, a);
    QuoteFreeRun(st, a);
    var parts := Split(a, ' ');
    assert [st.cur + parts[0]] + parts[1..] == parts by {
      assert st.cur + parts[0] == parts[0];
    }
  }

  // ---------------------------------------------------------------------
  // Quoting

  function HexDigit(n: nat): char
    requires n < 16
  {
    if n < 10 then ('0' as int + n) as char else ('a' as int + n - 10) as char
  }

  /** The escape fmt's %q writes for one character of the ASCII range;
      other characters are written as they are. */
  function EscapeChar(c: char): string {
    var n := c as int;
    if c == '"' then "\\\""
    else if c == '\\' then "\\\\"
    else if n == 0x07 then "\\a"
    else if n == 0x08 then "\\b"
    else if n == 0x0C then "\\f"
    else if n == 0x0A then "\\n"
    else if n == 0x0D then "\\r"
    else if n == 0x09 then "\\t"
    else if n == 0x0B then "\\v"
    else if n < 0x20 || n == 0x7F then ['\\', 'x', HexDigit(n / 16), HexDigit(n % 16)]
    else [c]
  }

  function Escape(s: string): string {
    if s == [] then [] else EscapeChar(s[0]) + Escape(s[1..])
  }

  /** fmt.Sprintf("%q", s) */
  function GoQuote(s: string): string {
    "\"" + Escape(s) + "\""
  }

  /** Needs no escape under %q. */
  predicate Plain(c: char) {
    c != '"' && c != '\\' && (0x20 <= c as int < 0x7F || c as int >= 0x80)
  }

  lemma {:induction false} EscapePlain(s: string)
    requires forall k :: 0 <= k < |s| ==> Plain(s[k])
    ensures Escape(s) == s
    decreases |s|
  {
    if s != [] {
      EscapePlain(s[1..]);
      assert [s[0]] + s[1..] == s;
    }
  }

  /** A character quoting can introduce: a quote, the escape backslash, or
      an escape letter or hex digit. */
  predicate QuotingChar(c: char) {
    c == '"' || c == '\'' || c == '\\' || 'a' <= c <= 'z' || '0' <= c <= '9'
  }

  lemma {:induction false} EscapeKeepsOut(s: string, c: char)
    requires !QuotingChar(c) && c !in s
    ensures c !in Escape(s)
    decreases |s|
  {
    if s != [] {
      EscapeKeepsOut(s[1..], c);
      assert c !in EscapeChar(s[0]);
    }
  }

  lemma {:induction false} QuoteEachKeepsOut(s: string, c: char)
    requires !QuotingChar(c) && c !in s
    ensures c !in QuoteEach(s)
    decreases |s|
  {
    if s != [] {
      QuoteEachKeepsOut(s[1..], c);
    }
  }

  /** quotePathIfNeeded: %q-quote a path that contains a space. */
  function QuotePathIfNeeded(path: string): (r: string)
    ensures ' ' !in path ==> r == path
    ensures ' ' in path ==> r == GoQuote(path)
  {
    if ' ' in path then GoQuote(path) else path
  }

  /** The quoting the tokeniser can read back: leave a path without spaces
      and quotes alone, otherwise wrap it in the quote it does not contain,
      and wrap each character separately when it contains both. */
  function QuotePathSafe(path: string): string {
    if QuoteFree(path) && ' ' !in path then path
    else if '"' !in path then "\"" + path + "\""
    else if '\'' !in path then "'" + path + "'"
    else QuoteEach(path)
  }

  /** Neither quoting introduces a character outside QuotingChar. */
  lemma QuotingKeepsOut(p: string, c: char)
    requires !QuotingChar(c) && c !in p
    ensures c !in QuotePathIfNeeded(p) && c !in QuotePathSafe(p)
  {
    GoQuoteKeepsOut(p, c);
    SafeQuoteKeepsOut(p, c);
  }

  lemma GoQuoteKeepsOut(p: string, c: char)
    requires !QuotingChar(c) && c !in p
    ensures c !in QuotePathIfNeeded(p)
  {
    EscapeKeepsOut(p, c);
    assert c !in "\"";
  }

  lemma SafeQuoteKeepsOut(p: string, c: char)
    requires !QuotingChar(c) && c !in p
    ensures c !in QuotePathSafe(p)
  {
    if QuoteFree(p) && ' ' !in p {
    } else if '"' !in p {
      assert c !in "\"";
    } else if '\'' !in p {
      assert c !in "'";
    } else {
      QuoteEachKeepsOut(p, c);
    }
  }

  /** Each character in its own span: '"' inside single quotes, anything
      else inside double quotes. */
  function QuoteEach(path: string): string {
    if path == [] then []
    else (if path[0] == '"' then ['\'', '"', '\''] else ['"', path[0], '"']) + QuoteEach(path[1..])
  }

  lemma {:induction false} RunQuoteEach(st: TokState, p: string)
    requires Unquoted(st)
    ensures Run(st, QuoteEach(p)) == st.(cur := st.cur + p)
    decreases |p|
  {
    if p == [] {
      assert st.cur + p == st.cur;
    } else {
      var q := if p[0] == '"' then '\'' else '"';
      assert QuoteEach(p) == [q] + [p[0]] + [q] + QuoteEach(p[1..]);
      RunAppend(st, [q] + [p[0]] + [q], QuoteEach(p[1..]));
      RunSpan(st, q, [p[0]]);
      var st1 := st.(cur := st.cur + [p[0]]);
      RunQuoteEach(st1, p[1..]);
      assert st.cur + [p[0]] + p[1..] == st.cur + p;
    }
  }

  /** Read back from an idle state, a safely quoted path becomes exactly the
      pending token, whatever characters it contains. */
  lemma RunQuotePathSafe(st: TokState, p: string)
    requires Unquoted(st)
    ensures Run(st, QuotePathSafe(p)) == st.(cur := st.cur + p)
  {
    if QuoteFree(p) && ' ' !in p {
      RunWord(st, p);
    } else if '"' !in p {
      RunSpan(st, '"', p);
    } else if '\'' !in p {
      RunSpan(st, '\'', p);
    } else {
      RunQuoteEach(st, p);
    }
  }

  /** The shipped quoting reads back unchanged when the path has a space but
      no character that %q escapes, or no space and no quote character. */
  predicate AsWrittenSafe(p: string) {
    if ' ' in p then forall k :: 0 <= k < |p| ==> Plain(p[k])
    else QuoteFree(p)
  }

  lemma RunQuotePathIfNeeded(st: TokState, p: string)
    requires Unquoted(st) && AsWrittenSafe(p)
    ensures Run(st, QuotePathIfNeeded(p)) == st.(cur := st.cur + p)
  {
    if ' ' in p {
      EscapePlain(p);
      assert QuotePathIfNeeded(p) == ['"'] + p + ['"'];
      RunSpan(st, '"', p);
    } else {
      RunWord(st, p);
    }
  }

  /** A space-free path with a quote character is passed through unquoted
      and the tokeniser drops the quote: a word w, a quote q, then a rest p
      without spaces or q reads back as the single token w + p. */
  lemma QuoteLost(w: string, q: char, p: string)
    requires QuoteFree(w) && ' ' !in w && IsQuote(q) && q !in p && ' ' !in p && w + p != []
    ensures QuotePathIfNeeded(w + [q] + p) == w + [q] + p
    ensures ParseCommandWithQuotes(QuotePathIfNeeded(w + [q] + p)) == [w + p]
  {
    var s := w + [q] + p;
    assert ' ' !in s by {
      forall k | 0 <= k < |s| ensures s[k] != ' ' {
        if k < |w| {
          assert s[k] == w[k];
        } else if k > |w| {
          assert s[k] == p[k - |w| - 1];
        }
      }
    }
    assert s == w + ([q] + p);
    WordThenUnterminated(Start, w, q, p);
    assert Start.cur + w + p == w + p;
  }

  /** The instance "it's.nes", which reads back as "its.nes". */
  lemma QuoteLostExample()
    ensures QuotePathIfNeeded("it's.nes") == "it's.nes"
    ensures ParseCommandWithQuotes(QuotePathIfNeeded("it's.nes")) == ["its.nes"]
  {
    var w, p := "it", "s.nes";
    assert QuoteFree(w) && ' ' !in w;
    assert ' ' !in p && '\'' !in p by {
      assert forall k :: 0 <= k < |p| ==> p[k] != ' ' && p[k] != '\'';
    }
    QuoteLost(w, '\'', p);
    assert w + ['\''] + p == "it's.nes";
    assert w + p == "its.nes";
  }

  /** A word followed by a quote that is never closed: the quote is
      dropped and the rest is appended to the word. */
  lemma WordThenUnterminated(st: TokState, w: string, q: char, p: string)
    requires Unquoted(st) && QuoteFree(w) && ' ' !in w
    requires IsQuote(q) && q !in p
    ensures Run(st, w + ([q] + p)) == st.(cur := st.cur + w + p, inQuote := true, quoteChar := q)
  {
    RunAppend(st, w, [q] + p);
    RunWord(st, w);
    RunUnterminated(st.(cur := st.cur + w), q, p);
  }

  /** A path with a space and a backslash: %q doubles the backslash and the
      tokeniser keeps both, so "a b\c" reads back as "a b\\c". */
  lemma EscapeKeptExample()
    ensures ParseCommandWithQuotes(QuotePathIfNeeded("a b\\c")) == ["a b\\\\c"]
  {
    var p := "a b\\c";
    var e := "a b\\\\c";
    EscapeBackslash();
    assert QuotePathIfNeeded(p) == ['"'] + e + ['"'] by {
      assert ' ' in p by { assert p[1] == ' '; }
    }
    assert '"' !in e by {
      assert forall k :: 0 <= k < |e| ==> e[k] != '"';
    }
    RunSpan(Start, '"', e);
    assert Run(Start, QuotePathIfNeeded(p)) == Start.(cur := e);
  }

  lemma EscapeBackslash()
    ensures Escape("a b\\c") == "a b\\\\c"
  {
    var p := "a b\\c";
    assert p == ['a', ' ', 'b', '\\', 'c'];
    assert p[4..] == ['c'];
    assert Escape(p[4..]) == "c";
    assert Escape(p[3..]) == ['\\', '\\', 'c'];
    assert Escape(p[2..]) == ['b', '\\', '\\', 'c'];
    assert Escape(p[1..]) == [' ', 'b', '\\', '\\', 'c'];
  }

  /** Alone on a command line, a safely quoted non-empty path is read back
      as exactly one token, the path itself. */
  lemma QuotePathSafeRoundTrip(p: string)
    ensures ParseCommandWithQuotes(QuotePathSafe(p)) == if p == [] then [] else [p]
  {
    RunQuotePathSafe(Start, p);
    assert Start.cur + p == p;
  }
}
