/** Literal search: the regular expression _fnFilterCreateSearch builds, said as what it accepts,
    with the searches for which building it throws. */
module TableSearch {
  import opened Wrappers

  /** smart: all words in any order; otherwise the text as it stands. `fold` is the identity,
      or the case folding of the characters when case is to be ignored. */
  datatype Options = Options(smart: bool, fold: char -> char)

  /** The length of the run of characters other than `stop` that starts `s`. */
  function RunLength(s: string, stop: char): (n: nat)
    ensures n <= |s| && forall k :: 0 <= k < n ==> s[k] != stop
    ensures n < |s| ==> s[n] == stop
  {
    if s == "" || s[0] == stop then 0 else 1 + RunLength(s[1..], stop)
  }

  /** The length of the match of /"[^"]+"|[^ ]+/ at the start of `s`. */
  function TokenLength(s: string): (n: nat)
    requires s != "" && s[0] != ' '
    ensures 1 <= n <= |s|
  {
    if s[0] == '"' then
      var inner := RunLength(s[1..], '"');
      if 1 <= inner < |s| - 1 then inner + 2 else RunLength(s, ' ')
    else RunLength(s, ' ')
  }

  /** All matches, left to right. */
  function Tokens(s: string): (r: seq<string>)
    ensures forall k :: 0 <= k < |r| ==> r[k] != ""
    decreases |s|
  {
    if s == "" then []
    else if s[0] == ' ' then Tokens(s[1..])
    else [s[..TokenLength(s)]] + Tokens(s[TokenLength(s)..])
  }

  /** The word of a token. A token that starts with a quote must match /^"(.*)"$/. */
  function Word(token: string): Option<string>
    requires token != ""
  {
    var last := |token| - 1;
    if token[0] != '"' then Some(token)
    else if last >= 1 && token[last] == '"' && forall k :: 1 <= k < last ==> !IsLineBreak(token[k]) then Some(token[1..last])
    else None
  }

  /** Building the search throws: a token starts with a quote but is no quoted word. */
  predicate Throws(input: string, o: Options) {
    o.smart && exists k :: 0 <= k < |Tokens(input)| && Word(Tokens(input)[k]).None?
  }

  /** The part of _fnFilterCreateSearch that collects the words; None when it throws. */
  method SearchWords(input: string) returns (words: Option<seq<string>>)
    ensures words.None? <==> exists k :: 0 <= k < |Tokens(input)| && Word(Tokens(input)[k]).None?
    ensures words.Some? ==> |words.value| == |Tokens(input)|
    ensures words.Some? ==> forall k :: 0 <= k < |Tokens(input)| ==> Word(Tokens(input)[k]) == Some(words.value[k])
  {
    var a: seq<string>, rest, i := [], input, 0;
    while rest != ""
      invariant 0 <= i == |a| <= |Tokens(input)| && Tokens(rest) == Tokens(input)[i..]
      invariant forall k :: 0 <= k < i ==> Word(Tokens(input)[k]) == Some(a[k])
      decreases |rest|
    {
      if rest[0] == ' ' {
        rest := rest[1..];
      } else {
        var n := TokenLength(rest);
        assert Tokens(rest)[0] == rest[..n] == Tokens(input)[i];
        var word := Word(rest[..n]);
        if word.None? { return None; }
        assert Tokens(rest)[1..] == Tokens(rest[n..]);
        a, rest, i := a + [word.value], rest[n..], i + 1;
      }
    }
    return Some(a);
  }

  /** A smart search for a single quote throws. */
  lemma LoneQuoteThrows(o: Options)
    requires o.smart
    ensures Throws("\"", o)
  {
    FirstToken("\"");
    assert Tokens("\"")[0] == "\"" && Word("\"").None?;
  }

  /** A search without quotes is never an error. */
  lemma {:induction false} QuoteFreeIsReadable(input: string)
    requires forall k :: 0 <= k < |input| ==> input[k] != '"'
    ensures Readable(input)
    decreases |input|
  {
    hide RunLength, Tokens;
    FirstToken(input);
    if input != "" && input[0] == ' ' {
      QuoteFreeIsReadable(input[1..]);
    } else if input != "" {
      var n := TokenLength(input);
      QuoteFreeIsReadable(input[n..]);
      forall k | 0 <= k < |Tokens(input)| ensures Word(Tokens(input)[k]).Some? {
        if k > 0 { assert Tokens(input)[k] == Tokens(input[n..])[k - 1]; }
      }
    }
  }

  function Folded(s: string, fold: char -> char): (r: string)
    ensures |r| == |s| && forall i :: 0 <= i < |s| ==> r[i] == fold(s[i])
  {
    seq(|s|, i requires 0 <= i < |s| => fold(s[i]))
  }

  predicate OccursAt(text: string, part: string, i: int) {
    0 <= i <= |text| - |part| && text[i..i + |part|] == part
  }

  predicate Contains(text: string, part: string) {
    exists i :: 0 <= i <= |text| && OccursAt(text, part, i)
  }

  predicate Finds(text: string, part: string, o: Options) {
    Contains(Folded(text, o.fold), Folded(part, o.fold))
  }

  /** Whether the search `input` is built and accepts the text of a row. */
  predicate Matches(text: string, input: string, o: Options) {
    if o.smart then
      forall k :: 0 <= k < |Tokens(input)| ==>
        var word := Word(Tokens(input)[k]);
        word.Some? && Finds(text, word.value, o)
    else Finds(text, input, o)
  }

  /** From place `i` on the text reads like the part, character by character, after folding. */
  predicate ReadsAt(text: string, part: string, fold: char -> char, i: nat) {
    i + |part| <= |text| && forall j :: 0 <= j < |part| ==> fold(text[i + j]) == fold(part[j])
  }

  ghost predicate Reads(text: string, part: string, fold: char -> char) {
    exists i: nat :: ReadsAt(text, part, fold, i)
  }

  /** A part is found where the text reads like it. */
  lemma FindsMeaning(text: string, part: string, o: Options)
    ensures Finds(text, part, o) <==> Reads(text, part, o.fold)
  {
    var t, p := Folded(text, o.fold), Folded(part, o.fold);
    forall i: nat | i + |part| <= |text| ensures OccursAt(t, p, i) <==> ReadsAt(text, part, o.fold, i) {
      var window := t[i..i + |p|];
      assert forall j :: 0 <= j < |part| ==> window[j] == o.fold(text[i + j]);
      assert OccursAt(t, p, i) ==> forall j :: 0 <= j < |part| ==> window[j] == p[j];
    }
    if Finds(text, part, o) {
      var i :| 0 <= i <= |t| && OccursAt(t, p, i);
      assert ReadsAt(text, part, o.fold, i);
    }
    if i: nat :| ReadsAt(text, part, o.fold, i) {
      assert OccursAt(t, p, i);
    }
  }

  /** The empty search accepts every row. */
  lemma EmptyMatchesAll(text: string, o: Options)
    ensures Matches(text, "", o)
  {
    assert OccursAt(Folded(text, o.fold), "", 0);
    assert Folded("", o.fold) == "";
  }

  lemma PrefixFound(text: string, p: string, q: string, o: Options)
    requires p <= q && Finds(text, q, o)
    ensures Finds(text, p, o)
  {
    var t, fp, fq := Folded(text, o.fold), Folded(p, o.fold), Folded(q, o.fold);
    var i :| 0 <= i <= |t| && OccursAt(t, fq, i);
    assert fp == fq[..|fp|];
    hide Folded;
    PrefixOccurs(t, fp, fq, i);
  }

  lemma PrefixOccurs(text: string, p: string, q: string, i: nat)
    requires p <= q && OccursAt(text, q, i)
    ensures OccursAt(text, p, i)
  {
    assert text[i..i + |p|] == text[i..i + |q|][..|p|];
  }

  /** `v` is one of the words of `s`. */
  ghost predicate IsWord(s: string, v: string) {
    exists k :: 0 <= k < |Tokens(s)| && Word(Tokens(s)[k]) == Some(v)
  }

  predicate Readable(s: string) {
    forall k :: 0 <= k < |Tokens(s)| ==> Word(Tokens(s)[k]).Some?
  }

  lemma {:induction false} RunGrows(s: string, rest: string, stop: char)
    ensures RunLength(s, stop) <= RunLength(s + rest, stop)
    ensures RunLength(s, stop) < |s| ==> RunLength(s + rest, stop) == RunLength(s, stop)
  {
    if s != "" && s[0] != stop {
      assert (s + rest)[1..] == s[1..] + rest;
      RunGrows(s[1..], rest, stop);
    }
  }

  /** Typing on leaves a readable token as it is, unless it is the last, whose word may grow. */
  lemma TokenGrows(s: string, rest: string)
    requires s != "" && s[0] != ' ' && Word(s[..TokenLength(s)]).Some?
    ensures var n, m, whole := TokenLength(s), TokenLength(s + rest), s + rest;
      && n <= m && (n < |s| ==> m == n)
      && (Word(whole[..m]).Some? ==> Word(s[..n]).value <= Word(whole[..m]).value)
  {
    RunGrows(s, rest, ' ');
    assert (s + rest)[1..] == s[1..] + rest;
    RunGrows(s[1..], rest, '"');
    var n, whole := TokenLength(s), s + rest;
    assert s[..n] == whole[..n] == whole[..TokenLength(whole)][..n];
    hide RunLength;
    WordGrows(s[..n], whole[..TokenLength(whole)]);
  }

  lemma WordGrows(a: string, b: string)
    requires a != "" && a <= b && Word(a).Some?
    ensures Word(b).Some? ==> Word(a).value <= Word(b).value
  {
    if a[0] == '"' && Word(b).Some? {
      var u, v := Word(a).value, Word(b).value;
      assert |u| <= |v| && forall k :: 0 <= k < |u| ==> u[k] == a[k + 1] == b[k + 1] == v[k];
    }
  }

  /** Each word of a search that can be read is, or begins, a word of the search typed on. */
  lemma {:induction false} WordsOfPrefix(s: string, rest: string, w: string) returns (v: string)
    requires Readable(s) && Readable(s + rest) && IsWord(s, w)
    ensures w <= v && IsWord(s + rest, v)
    decreases |s|
  {
    hide Tokens, Word, TokenLength;
    var whole := s + rest;
    var k :| 0 <= k < |Tokens(s)| && Word(Tokens(s)[k]) == Some(w);
    FirstToken(s);
    FirstToken(whole);
    if s[0] == ' ' {
      assert whole[1..] == s[1..] + rest;
      v := WordsOfPrefix(s[1..], rest, w);
    } else {
      var n := TokenLength(s);
      assert Tokens(s)[0] == s[..n] && Tokens(whole)[0] == whole[..TokenLength(whole)];
      TokenGrows(s, rest);
      if k == 0 {
        v := Word(whole[..TokenLength(whole)]).value;
      } else {
        FirstToken(s[n..]);
        assert whole[n..] == s[n..] + rest;
        ReadableTail(s, n);
        ReadableTail(whole, n);
        assert Tokens(s[n..])[k - 1] == Tokens(s)[k];
        v := WordsOfPrefix(s[n..], rest, w);
        var j :| 0 <= j < |Tokens(whole[n..])| && Word(Tokens(whole[n..])[j]) == Some(v);
        assert Tokens(whole)[j + 1] == Tokens(whole[n..])[j];
      }
    }
  }

  lemma FirstToken(s: string)
    ensures s == "" ==> Tokens(s) == []
    ensures s != "" && s[0] == ' ' ==> Tokens(s) == Tokens(s[1..])
    ensures s != "" && s[0] != ' ' ==> Tokens(s) == [s[..TokenLength(s)]] + Tokens(s[TokenLength(s)..])
  {
  }

  lemma ReadableTail(s: string, n: nat)
    requires s != "" && s[0] != ' ' && n == TokenLength(s) && Readable(s)
    ensures Readable(s[n..])
  {
    forall k | 0 <= k < |Tokens(s[n..])| ensures Word(Tokens(s[n..])[k]).Some? {
      assert Tokens(s)[k + 1] == Tokens(s[n..])[k];
    }
  }

  /** A search accepts no row that a prefix of it, itself no error, turns down; so narrowing
      loses nothing, with quoted words or without. */
  lemma Monotone(text: string, prev: string, input: string, o: Options)
    requires prev <= input && !Throws(prev, o) && Matches(text, input, o)
    ensures Matches(text, prev, o)
  {
    if o.smart {
      assert input == prev + input[|prev|..];
      forall k | 0 <= k < |Tokens(prev)| ensures Finds(text, Word(Tokens(prev)[k]).value, o) {
        var w := Word(Tokens(prev)[k]).value;
        var v := WordsOfPrefix(prev, input[|prev|..], w);
        var j :| 0 <= j < |Tokens(input)| && Word(Tokens(input)[j]) == Some(v);
        PrefixFound(text, w, v, o);
      }
    } else {
      PrefixFound(text, prev, input, o);
    }
  }

  // ------------------------------------------------------------------ what the words are

  /** s[from..to] */
  datatype Span = Span(from: nat, to: nat)

  predicate Within(s: string, m: Span) {
    m.from < m.to <= |s|
  }

  /** A quote, some other characters, and the next quote. */
  predicate Quoted(s: string, m: Span) {
    && Within(s, m) && m.from + 3 <= m.to && s[m.from] == s[m.to - 1] == '"'
    && forall p :: m.from < p < m.to - 1 ==> s[p] != '"'
  }

  /** Characters other than the space, up to a space or the end. */
  predicate Unspaced(s: string, m: Span) {
    && Within(s, m) && (forall p :: m.from <= p < m.to ==> s[p] != ' ')
    && (m.to < |s| ==> s[m.to] == ' ')
  }

  /** A match of /"[^"]+"|[^ ]+/: the quoted alternative goes first. */
  ghost predicate Matched(s: string, m: Span) {
    Quoted(s, m) || (Unspaced(s, m) && forall to: nat :: !Quoted(s, Span(m.from, to)))
  }

  predicate Blank(s: string, from: nat, to: nat) {
    from <= to <= |s| && forall p :: from <= p < to ==> s[p] == ' '
  }

  /** From `start` on, `s` is read as these matches with nothing but spaces between them. */
  ghost predicate ReadFrom(s: string, start: nat, spans: seq<Span>)
    decreases spans
  {
    if spans == [] then Blank(s, start, |s|)
    else Matched(s, spans[0]) && Blank(s, start, spans[0].from) && ReadFrom(s, spans[0].to, spans[1..])
  }

  lemma TokenIsMatched(s: string, start: nat)
    requires start < |s| && s[start] != ' '
    ensures Matched(s, Span(start, start + TokenLength(s[start..])))
  {
    var n, m := TokenLength(s[start..]), |s| - start;
    var t := s[start..];
    var inner := RunLength(t[1..], '"');
    assert forall p :: 0 <= p < m ==> t[p] == s[start + p];
    assert forall p :: 0 <= p < m - 1 ==> t[1..][p] == s[start + 1 + p];
    if s[start] == '"' && 1 <= inner < m - 1 {
      assert forall p :: start < p < start + n - 1 ==> s[p] == t[1..][p - start - 1];
      assert Quoted(s, Span(start, start + n));
    } else {
      assert forall p :: start <= p < start + n ==> s[p] == t[p - start];
      forall to: nat ensures !Quoted(s, Span(start, to)) {
        if start + 3 <= to <= |s| && s[start] == '"' {
          assert inner < m - 1 ==> s[start + 1 + inner] == t[1..][inner];
          assert s[to - 1] == t[1..][to - start - 2];
          assert inner >= 1 ==> s[start + 1] == t[1..][0];
        }
      }
    }
  }

  /** From one place on there is one match. */
  lemma MatchedOnce(s: string, from: nat, a: nat, b: nat)
    requires Matched(s, Span(from, a)) && Matched(s, Span(from, b))
    ensures a == b
  {
    if Quoted(s, Span(from, a)) {
      assert Quoted(s, Span(from, b));
      assert s[b - 1] == '"' && s[a - 1] == '"';
    }
  }

  function Text(s: string, m: Span): string
    requires Within(s, m)
  {
    s[m.from..m.to]
  }

  predicate AllWithin(s: string, spans: seq<Span>) {
    forall k :: 0 <= k < |spans| ==> Within(s, spans[k])
  }

  function TextOf(s: string, spans: seq<Span>): (r: seq<string>)
    requires AllWithin(s, spans)
    ensures |r| == |spans| && forall k :: 0 <= k < |r| ==> r[k] == Text(s, spans[k])
  {
    seq(|spans|, k requires 0 <= k < |spans| => Text(s, spans[k]))
  }

  lemma TextOfTail(s: string, spans: seq<Span>)
    requires spans != [] && AllWithin(s, spans)
    ensures AllWithin(s, spans[1..]) && TextOf(s, spans) == [Text(s, spans[0])] + TextOf(s, spans[1..])
  {
  }

  lemma {:induction false} ReadWithin(s: string, start: nat, spans: seq<Span>)
    requires ReadFrom(s, start, spans)
    ensures start <= |s| && AllWithin(s, spans)
    decreases spans
  {
    if spans != [] {
      ReadWithin(s, spans[0].to, spans[1..]);
      forall k | 0 <= k < |spans| ensures Within(s, spans[k]) {
        assert k > 0 ==> spans[k] == spans[1..][k - 1];
      }
    }
  }

  lemma EmptyText(s: string, spans: seq<Span>)
    requires spans == []
    ensures AllWithin(s, spans) && TextOf(s, spans) == []
  {
  }

  lemma MatchedStart(s: string, m: Span)
    requires Matched(s, m)
    ensures Within(s, m) && s[m.from] != ' '
  {
  }

  /** Where no space starts the rest of the search, a match and a token do. */
  lemma ReadHere(s: string, start: nat, spans: seq<Span>)
    requires ReadFrom(s, start, spans) && start < |s| && s[start] != ' '
    ensures spans != [] && spans[0].from == start < spans[0].to <= |s|
    ensures TokenLength(s[start..]) == spans[0].to - start
    ensures ReadFrom(s, spans[0].to, spans[1..])
  {
    hide TokenLength, Matched;
    var m := spans[0];
    TokenIsMatched(s, start);
    assert Span(start, m.to) == m;
    MatchedOnce(s, start, start + TokenLength(s[start..]), m.to);
    MatchedStart(s, m);
  }

  lemma ReadLater(s: string, start: nat, spans: seq<Span>)
    requires ReadFrom(s, start, spans) && start <= |s|
    ensures start == |s| ==> spans == []
    ensures start < |s| && s[start] == ' ' ==> ReadFrom(s, start + 1, spans)
  {
    hide Matched;
    if spans != [] { MatchedStart(s, spans[0]); }
  }

  /** The tokens of a search are the matches of the expression, left to right: whoever reads
      it so finds these. */
  lemma {:induction false} TokensAreMatches(s: string, start: nat, spans: seq<Span>)
    requires ReadFrom(s, start, spans)
    ensures start <= |s| && AllWithin(s, spans)
    ensures Tokens(s[start..]) == TextOf(s, spans)
    decreases |s| - start
  {
    ReadWithin(s, start, spans);
    hide TokenLength, ReadFrom, Tokens, TextOf, AllWithin;
    ReadLater(s, start, spans);
    if start == |s| {
      FirstToken("");
      EmptyText(s, spans);
    } else if s[start] == ' ' {
      FirstToken(s[start..]);
      TailOfTail(s, start, 1);
      TokensAreMatches(s, start + 1, spans);
    } else {
      ReadHere(s, start, spans);
      TokensAreMatches(s, spans[0].to, spans[1..]);
      TokenAndRest(s, start, spans);
    }
  }

  lemma TokenAndRest(s: string, start: nat, spans: seq<Span>)
    requires start < |s| && s[start] != ' ' && spans != [] && AllWithin(s, spans)
    requires spans[0].from == start && TokenLength(s[start..]) == spans[0].to - start
    requires AllWithin(s, spans[1..]) && Tokens(s[spans[0].to..]) == TextOf(s, spans[1..])
    ensures Tokens(s[start..]) == TextOf(s, spans)
  {
    hide TokenLength, Tokens, TextOf, AllWithin;
    FirstToken(s[start..]);
    TextOfTail(s, spans);
    SpanInside(s, spans);
    TailOfTail(s, start, spans[0].to - start);
  }

  lemma SpanInside(s: string, spans: seq<Span>)
    requires spans != [] && AllWithin(s, spans)
    ensures Within(s, spans[0])
  {
  }

  lemma TailOfTail(s: string, start: nat, n: nat)
    requires start + n <= |s|
    ensures s[start..][n..] == s[start + n..] && s[start..][..n] == s[start..start + n]
  {
  }

  /** Every search can be read so. */
  lemma {:induction false} ReadingExists(s: string, start: nat) returns (spans: seq<Span>)
    requires start <= |s|
    ensures ReadFrom(s, start, spans)
    decreases |s| - start
  {
    hide TokenLength, Matched;
    if start == |s| {
      spans := [];
    } else if s[start] == ' ' {
      spans := ReadingExists(s, start + 1);
    } else {
      TokenIsMatched(s, start);
      var m := Span(start, start + TokenLength(s[start..]));
      MatchedStart(s, m);
      var rest := ReadingExists(s, m.to);
      spans := [m] + rest;
      assert spans[1..] == rest;
    }
  }

  /** A token is its own word, or what stands between the quotes around it. */
  lemma WordMeaning(token: string, w: string)
    requires token != ""
    ensures Word(token) == Some(w) <==>
            || (token[0] != '"' && w == token)
            || (token == "\"" + w + "\"" && forall k :: 0 <= k < |w| ==> !IsLineBreak(w[k]))
  {
    if token == "\"" + w + "\"" {
      assert token[1..|token| - 1] == w;
      assert forall k :: 1 <= k < |token| - 1 ==> token[k] == w[k - 1];
    }
    if token[0] == '"' && Word(token) == Some(w) {
      assert token == [token[0]] + token[1..|token| - 1] + [token[|token| - 1]];
      assert forall k :: 0 <= k < |w| ==> w[k] == token[k + 1];
    }
  }

  // ------------------------------------------------------------------ searches without quotes

  /** A run of characters other than the space that cannot be made longer. */
  predicate MaximalRun(s: string, m: Span) {
    Unspaced(s, m) && (m.from > 0 ==> s[m.from - 1] == ' ')
  }

  predicate QuoteFree(s: string) {
    forall k :: 0 <= k < |s| ==> s[k] != '"'
  }

  lemma {:induction false} MatchesAreRuns(s: string, start: nat, spans: seq<Span>, m: Span)
    requires QuoteFree(s) && ReadFrom(s, start, spans) && (0 < start < |s| ==> s[start] == ' ')
    ensures m in spans <==> MaximalRun(s, m) && start <= m.from
    decreases spans
  {
    ReadWithin(s, start, spans);
    if spans == [] {
      assert Unspaced(s, m) ==> s[m.from] != ' ';
    } else {
      var first := spans[0];
      assert Unspaced(s, first);
      MatchesAreRuns(s, first.to, spans[1..], m);
      assert first.from > 0 ==> s[first.from - 1] == ' ' by {
        assert first.from > start ==> s[first.from - 1] == ' ';
      }
      if MaximalRun(s, m) && start <= m.from < first.to {
        assert s[m.from] != ' ';
        assert m.from == first.from;
        assert m.to == first.to;
      }
    }
  }

  /** A smart search without quotes accepts the texts that contain all its words, in any
      order: the longest runs of characters other than the space. */
  lemma QuoteFreeSearch(text: string, input: string, o: Options)
    requires o.smart && QuoteFree(input)
    ensures Matches(text, input, o) <==>
            forall m :: MaximalRun(input, m) ==>
              Reads(text, Text(input, m), o.fold)
  {
    forall m | MaximalRun(input, m) ensures Finds(text, Text(input, m), o) <==> Reads(text, Text(input, m), o.fold) {
      FindsMeaning(text, Text(input, m), o);
    }
    hide Finds, Reads;
    var spans := ReadingExists(input, 0);
    TokensAreMatches(input, 0, spans);
    assert input[0..] == input;
    var tokens := Tokens(input);
    forall m ensures m in spans <==> MaximalRun(input, m) { MatchesAreRuns(input, 0, spans, m); }
    forall k | 0 <= k < |tokens| ensures Word(tokens[k]) == Some(tokens[k]) {
      assert tokens[k][0] == input[spans[k].from];
    }
    hide Tokens, MaximalRun, ReadFrom, Word;
    forall m | m in spans ensures exists k :: 0 <= k < |spans| && spans[k] == m && tokens[k] == Text(input, m) {
      var k :| 0 <= k < |spans| && spans[k] == m;
      assert tokens[k] == Text(input, m);
    }
  }

  /** A single word is searched as it stands. */
  lemma OneWordSearch(text: string, w: string, o: Options)
    requires o.smart && w != "" && QuoteFree(w) && forall k :: 0 <= k < |w| ==> w[k] != ' '
    ensures Matches(text, w, o) <==> Reads(text, w, o.fold)
    ensures Matches(text, w, o) <==> Contains(Folded(text, o.fold), Folded(w, o.fold))
  {
    QuoteFreeSearch(text, w, o);
    var all := Span(0, |w|);
    assert Text(w, all) == w && MaximalRun(w, all);
    assert forall m :: MaximalRun(w, m) ==> m == all;
    FindsMeaning(text, w, o);
    hide Matches, Reads;
  }
}
