/**
 The tokenizer of `search/tokenizer.rs`: script runs and the grams they are indexed under.

 `Tokenize` is the loop of the source.  What it computes is stated twice: as the
 recursion `TokensFrom`, which the other modules use, and, through `Spans`, as the list of
 all maximal whitespace-free single-script runs of the text in order.
 */
module Tokenizer {
  import opened QGrams

  datatype Script = Latn | Cyrl | Grek | Hani | Hira | Kana | Hang | Arab | Hebr | Deva | Beng | Thai | Other

  datatype Token = Token(text: string, script: Script)

  /** Lowercasing, one character at a time. */
  type Lowercase = char -> char

  function DetectScript(c: char): Script {
    var code := c as int;
    if 0x41 <= code <= 0x5A || 0x61 <= code <= 0x7A || 0xC0 <= code <= 0x24F then Latn
    else if 0x400 <= code <= 0x4FF then Cyrl
    else if 0x370 <= code <= 0x3FF then Grek
    else if 0x4E00 <= code <= 0x9FFF || 0xF900 <= code <= 0xFAFF then Hani
    else if 0x3040 <= code <= 0x309F then Hira
    else if 0x30A0 <= code <= 0x30FF then Kana
    else if 0xAC00 <= code <= 0xD7AF || 0x1100 <= code <= 0x11FF then Hang
    else if 0x600 <= code <= 0x6FF then Arab
    else if 0x590 <= code <= 0x5FF then Hebr
    else if 0x900 <= code <= 0x97F then Deva
    else if 0x980 <= code <= 0x9FF then Beng
    else if 0xE00 <= code <= 0xE7F then Thai
    else Other
  }

  /** The blocks of each script, first and last code point. */
  function Blocks(script: Script): seq<(int, int)> {
    match script
    case Latn => [(0x41, 0x5A), (0x61, 0x7A), (0xC0, 0x24F)]
    case Cyrl => [(0x400, 0x4FF)]
    case Grek => [(0x370, 0x3FF)]
    case Hani => [(0x4E00, 0x9FFF), (0xF900, 0xFAFF)]
    case Hira => [(0x3040, 0x309F)]
    case Kana => [(0x30A0, 0x30FF)]
    case Hang => [(0xAC00, 0xD7AF), (0x1100, 0x11FF)]
    case Arab => [(0x600, 0x6FF)]
    case Hebr => [(0x590, 0x5FF)]
    case Deva => [(0x900, 0x97F)]
    case Beng => [(0x980, 0x9FF)]
    case Thai => [(0xE00, 0xE7F)]
    case Other => []
  }

  predicate InBlocks(c: char, script: Script) {
    exists k :: 0 <= k < |Blocks(script)| && Blocks(script)[k].0 <= c as int <= Blocks(script)[k].1
  }

  /** The blocks of the scripts are disjoint, so the order of the tests does not matter. */
  lemma ScriptIff(c: char, script: Script)
    ensures script != Other ==> (DetectScript(c) == script <==> InBlocks(c, script))
    ensures DetectScript(c) == Other <==> forall s: Script :: !InBlocks(c, s)
  {
    OwnBlock(c);
    forall s: Script | s != DetectScript(c)
      ensures !InBlocks(c, s)
    {
    }
  }

  lemma OwnBlock(c: char)
    ensures DetectScript(c) != Other ==> InBlocks(c, DetectScript(c))
  {
    var blocks := Blocks(DetectScript(c));
    if 0 < |blocks| && blocks[0].0 <= c as int <= blocks[0].1 {
    } else if 1 < |blocks| && blocks[1].0 <= c as int <= blocks[1].1 {
    } else if 2 < |blocks| && blocks[2].0 <= c as int <= blocks[2].1 {
    }
  }

  /** The Unicode White_Space property. */
  predicate IsWhitespace(c: char) {
    var code := c as int;
    || 0x9 <= code <= 0xD || code == 0x20 || code == 0x85 || code == 0xA0 || code == 0x1680
    || 0x2000 <= code <= 0x200A || code == 0x2028 || code == 0x2029 || code == 0x202F
    || code == 0x205F || code == 0x3000
  }

  // ---------------------------------------------------------------------------
  // Tokens
  // ---------------------------------------------------------------------------

  /** The end of the run that starts at `lo` and is known to reach `i`. */
  function RunEnd(text: string, lo: nat, i: nat): (hi: nat)
    requires lo < i <= |text|
    ensures i <= hi <= |text|
    decreases |text| - i
  {
    if i < |text| && !IsWhitespace(text[i]) && DetectScript(text[i]) == DetectScript(text[lo])
    then RunEnd(text, lo, i + 1)
    else i
  }

  function TokensFrom(text: string, i: nat): seq<Token>
    requires i <= |text|
    decreases |text| - i
  {
    if i == |text| then []
    else if IsWhitespace(text[i]) then TokensFrom(text, i + 1)
    else
      var hi := RunEnd(text, i, i + 1);
      [Token(text[i..hi], DetectScript(text[i]))] + TokensFrom(text, hi)
  }

  function Tokens(text: string): seq<Token> {
    TokensFrom(text, 0)
  }

  /** `current` is the part before `i` of a run that starts at `lo`; it is empty when there is none. */
  ghost predicate Pending(text: string, lo: nat, i: nat, current: string, script: Script) {
    && lo <= i <= |text|
    && current == text[lo..i]
    && (lo < i ==>
         && !IsWhitespace(text[lo])
         && script == DetectScript(text[lo])
         && RunEnd(text, lo, i) == RunEnd(text, lo, lo + 1))
  }

  lemma Flush(text: string, tokens: seq<Token>, lo: nat, i: nat, current: string, script: Script)
    requires Pending(text, lo, i, current, script) && lo < i
    requires RunEnd(text, lo, i) == i
    ensures tokens + TokensFrom(text, lo) == tokens + [Token(current, script)] + TokensFrom(text, i)
  {
    assert TokensFrom(text, lo) == [Token(current, script)] + TokensFrom(text, i);
  }

  lemma Extend(text: string, lo: nat, i: nat, current: string, script: Script)
    requires Pending(text, lo, i, current, script) && i < |text| && !IsWhitespace(text[i])
    requires lo < i ==> DetectScript(text[i]) == script
    ensures Pending(text, lo, i + 1, current + [text[i]], DetectScript(text[i]))
  {
  }

  method Tokenize(text: string) returns (tokens: seq<Token>)
    ensures tokens == Tokens(text)
  {
    tokens := [];
    var current: string := [];
    var currentScript := Latn;
    ghost var lo := 0;
    var i := 0;
    while i < |text|
      invariant Pending(text, lo, i, current, currentScript)
      invariant Tokens(text) == tokens + TokensFrom(text, lo)
    {
      var c := text[i];
      if IsWhitespace(c) {
        if current != [] {
          Flush(text, tokens, lo, i, current, currentScript);
          tokens := tokens + [Token(current, currentScript)];
          current := [];
        }
        lo := i + 1;
      } else {
        var script := DetectScript(c);
        if script != currentScript && current != [] {
          Flush(text, tokens, lo, i, current, currentScript);
          tokens := tokens + [Token(current, currentScript)];
          current := [];
          lo := i;
        }
        Extend(text, lo, i, current, currentScript);
        currentScript := script;
        current := current + [c];
      }
      i := i + 1;
    }
    if current != [] {
      Flush(text, tokens, lo, i, current, currentScript);
      tokens := tokens + [Token(current, currentScript)];
    }
  }

  // ---------------------------------------------------------------------------
  // Tokens are the maximal runs
  // ---------------------------------------------------------------------------

  datatype Span = Span(lo: nat, hi: nat)

  /** No whitespace, one script. */
  ghost predicate IsRun(text: string, s: Span) {
    && s.lo < s.hi <= |text|
    && forall k {:trigger text[k]} :: s.lo <= k < s.hi ==>
         !IsWhitespace(text[k]) && DetectScript(text[k]) == DetectScript(text[s.lo])
  }

  /** A run that no longer run contains. */
  ghost predicate IsMaximalRun(text: string, s: Span) {
    IsRun(text, s) && forall t :: IsRun(text, t) && t.lo <= s.lo && s.hi <= t.hi ==> t == s
  }

  ghost predicate Increasing(spans: seq<Span>) {
    forall i, j :: 0 <= i < j < |spans| ==> spans[i].hi <= spans[j].lo
  }

  function TokenAt(text: string, s: Span): Token
    requires s.lo < s.hi <= |text|
  {
    Token(text[s.lo..s.hi], DetectScript(text[s.lo]))
  }

  function Spans(text: string, i: nat): (spans: seq<Span>)
    requires i <= |text|
    decreases |text| - i
  {
    if i == |text| then []
    else if IsWhitespace(text[i]) then Spans(text, i + 1)
    else [Span(i, RunEnd(text, i, i + 1))] + Spans(text, RunEnd(text, i, i + 1))
  }

  /** A character that could have joined the run of `text[i - 1]`. */
  ghost predicate Continues(text: string, i: nat)
    requires 0 < i < |text|
  {
    && !IsWhitespace(text[i - 1])
    && !IsWhitespace(text[i])
    && DetectScript(text[i - 1]) == DetectScript(text[i])
  }

  lemma {:induction false} RunEndIsMaximal(text: string, lo: nat, i: nat)
    requires IsRun(text, Span(lo, i))
    ensures IsRun(text, Span(lo, RunEnd(text, lo, i)))
    ensures RunEnd(text, lo, i) < |text| ==> !Continues(text, RunEnd(text, lo, i))
    decreases |text| - i
  {
    if i < |text| && !IsWhitespace(text[i]) && DetectScript(text[i]) == DetectScript(text[lo]) {
      RunEndIsMaximal(text, lo, i + 1);
    }
  }

  /** Runs are maximal exactly when neither neighbour continues them. */
  lemma MaximalRunEnds(text: string, s: Span)
    requires IsRun(text, s)
    ensures IsMaximalRun(text, s) <==>
              (s.lo > 0 ==> !Continues(text, s.lo)) && (s.hi < |text| ==> !Continues(text, s.hi))
  {
    if s.lo > 0 && Continues(text, s.lo) {
      assert IsRun(text, Span(s.lo - 1, s.hi));
    }
    if s.hi < |text| && Continues(text, s.hi) {
      assert IsRun(text, Span(s.lo, s.hi + 1));
    }
    forall t | IsRun(text, t) && t.lo <= s.lo && s.hi <= t.hi && t != s
      ensures (s.lo > 0 && Continues(text, s.lo)) || (s.hi < |text| && Continues(text, s.hi))
    {
      if t.lo < s.lo {
        RunContinues(text, t, s.lo);
      } else {
        RunContinues(text, t, s.hi);
      }
    }
  }

  lemma RunContinues(text: string, s: Span, k: nat)
    requires IsRun(text, s) && s.lo < k < s.hi
    ensures Continues(text, k)
  {
  }

  /** `spans` are the maximal runs that start at `i` or later. */
  ghost predicate AreRunsFrom(text: string, spans: seq<Span>, i: nat) {
    && (forall s :: s in spans <==> IsMaximalRun(text, s) && i <= s.lo)
    && Increasing(spans)
  }

  ghost predicate CutFrom(text: string, tokens: seq<Token>, spans: seq<Span>) {
    && |tokens| == |spans|
    && forall k :: 0 <= k < |spans| ==> IsRun(text, spans[k]) && tokens[k] == TokenAt(text, spans[k])
  }

  lemma RunsFromSpace(text: string, spans: seq<Span>, i: nat)
    requires i < |text| && IsWhitespace(text[i]) && AreRunsFrom(text, spans, i + 1)
    ensures AreRunsFrom(text, spans, i)
  {
  }

  lemma RunsFromRun(text: string, first: Span, spans: seq<Span>)
    requires IsMaximalRun(text, first) && AreRunsFrom(text, spans, first.hi)
    ensures AreRunsFrom(text, [first] + spans, first.lo)
  {
    forall s | IsMaximalRun(text, s) && first.lo <= s.lo < first.hi
      ensures s == first
    {
      MaximalRunsMeet(text, first, s);
    }
    forall k | 0 <= k < |spans|
      ensures first.hi <= spans[k].lo
    {
      assert spans[k] in spans;
    }
    var all := [first] + spans;
    assert forall s :: s in all <==> s == first || s in spans;
  }

  lemma CutFromRun(text: string, first: Span, tokens: seq<Token>, spans: seq<Span>)
    requires IsRun(text, first) && CutFrom(text, tokens, spans)
    ensures CutFrom(text, [TokenAt(text, first)] + tokens, [first] + spans)
  {
  }

  lemma {:induction false} SpansFromAreMaximalRuns(text: string, i: nat)
    requires i <= |text| && (0 < i < |text| ==> !Continues(text, i))
    ensures AreRunsFrom(text, Spans(text, i), i)
    ensures CutFrom(text, TokensFrom(text, i), Spans(text, i))
    decreases |text| - i
  {
    if i == |text| {
      assert Spans(text, i) == [];
    } else if IsWhitespace(text[i]) {
      SpansFromAreMaximalRuns(text, i + 1);
      RunsFromSpace(text, Spans(text, i + 1), i);
    } else {
      var first := Span(i, RunEnd(text, i, i + 1));
      RunEndIsMaximal(text, i, i + 1);
      MaximalRunEnds(text, first);
      SpansFromAreMaximalRuns(text, first.hi);
      RunsFromRun(text, first, Spans(text, first.hi));
      CutFromRun(text, first, TokensFrom(text, first.hi), Spans(text, first.hi));
    }
  }

  lemma MaximalRunsMeet(text: string, s: Span, t: Span)
    requires IsMaximalRun(text, s) && IsMaximalRun(text, t) && s.lo <= t.lo < s.hi
    ensures s == t
  {
    var whole := Span(s.lo, if s.hi < t.hi then t.hi else s.hi);
    assert IsRun(text, whole);
  }

  /** The tokens of a text are its maximal runs, all of them, from left to right. */
  lemma TokensAreMaximalRuns(text: string) returns (spans: seq<Span>)
    ensures forall s :: s in spans <==> IsMaximalRun(text, s)
    ensures Increasing(spans)
    ensures CutFrom(text, Tokens(text), spans)
  {
    spans := Spans(text, 0);
    SpansFromAreMaximalRuns(text, 0);
  }

  // ---------------------------------------------------------------------------
  // Grams
  // ---------------------------------------------------------------------------

  function Lower(lower: Lowercase, s: string): (r: string)
    ensures |r| == |s|
  {
    seq(|s|, i requires 0 <= i < |s| => lower(s[i]))
  }

  predicate UsesBigrams(script: Script) {
    script == Hani || script == Hira || script == Kana || script == Hang
  }

  /** A character of Chinese, Japanese or Korean script, which has no spaces between words. */
  predicate IsCjk(c: char) {
    var code := c as int;
    || 0x3040 <= code <= 0x30FF || 0x4E00 <= code <= 0x9FFF || 0xF900 <= code <= 0xFAFF
    || 0xAC00 <= code <= 0xD7AF || 0x1100 <= code <= 0x11FF
  }

  /** A token has no whitespace, and is indexed by bigrams if it is Chinese, Japanese or Korean throughout. */
  lemma BigramsIffCjk(text: string, token: Token)
    requires token in Tokens(text)
    ensures token.text != []
    ensures forall k :: 0 <= k < |token.text| ==>
              !IsWhitespace(token.text[k]) && (IsCjk(token.text[k]) <==> UsesBigrams(token.script))
  {
    var spans := TokensAreMaximalRuns(text);
    var i :| 0 <= i < |spans| && Tokens(text)[i] == token;
    assert IsRun(text, spans[i]) && token == TokenAt(text, spans[i]);
    forall k | 0 <= k < |token.text|
      ensures !IsWhitespace(token.text[k]) && (IsCjk(token.text[k]) <==> UsesBigrams(token.script))
    {
      assert token.text[k] == text[spans[i].lo + k];
    }
  }

  function Trigrams(lower: Lowercase, token: string): seq<string> {
    if |token| < 3 then [Lower(lower, token)]
    else seq(|token| - 2, i requires 0 <= i < |token| - 2 => Lower(lower, token[i..i + 3]))
  }

  function Bigrams(token: string): seq<string> {
    if |token| < 2 then [token]
    else seq(|token| - 1, i requires 0 <= i < |token| - 1 => token[i..i + 2])
  }

  function Grams(lower: Lowercase, token: Token): seq<string> {
    if UsesBigrams(token.script) then Bigrams(token.text) else Trigrams(lower, token.text)
  }

  /** How many characters a gram of the token has, and the text the grams are cut from. */
  function GramSize(script: Script): nat {
    if UsesBigrams(script) then 2 else 3
  }

  function Folded(lower: Lowercase, token: Token): string {
    if UsesBigrams(token.script) then token.text else Lower(lower, token.text)
  }

  lemma GramsAreWindows(lower: Lowercase, token: Token)
    requires |token.text| >= GramSize(token.script)
    ensures Grams(lower, token) == Windows(Folded(lower, token), GramSize(token.script))
  {
    var grams, q := Grams(lower, token), GramSize(token.script);
    var s := Folded(lower, token);
    forall i | 0 <= i < |grams|
      ensures grams[i] == Windows(s, q)[i]
    {
      WindowAt(s, q, i);
      assert s[i..i + q] == Folded(lower, Token(token.text[i..i + q], token.script));
    }
  }
}
