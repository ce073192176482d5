/** Replacing the reply in an e-mail draft document while keeping its header block and the quoted
    chain below the reply. */
module ReplyMerge {
  import opened Prelude

  const SEPARATOR: string := "\n---\n"

  const QUOTE_MARKERS: seq<string> := [
    "---------- Previous message ----------",
    "-----Original Message-----",
    "----- Original Message -----"
  ]

  // ---- strings ----

  predicate OccursAt(s: string, pat: string, i: int) {
    0 <= i && i + |pat| <= |s| && s[i..i + |pat|] == pat
  }

  lemma OccursShift(s: string, pat: string, i: int)
    requires s != ""
    ensures i > 0 ==> (OccursAt(s, pat, i) <==> OccursAt(s[1..], pat, i - 1))
  {
    if i > 0 && i + |pat| <= |s| {
      var here, there := s[i..i + |pat|], s[1..][i - 1..i - 1 + |pat|];
      assert forall k | 0 <= k < |pat| :: here[k] == there[k];
      assert here == there;
    }
  }

  lemma OccurrencesShift(s: string, pat: string)
    requires s != ""
    ensures forall i {:trigger OccursAt(s, pat, i)} | i > 0 :: OccursAt(s, pat, i) <==> OccursAt(s[1..], pat, i - 1)
  {
    forall i | i > 0 ensures OccursAt(s, pat, i) <==> OccursAt(s[1..], pat, i - 1) {
      OccursShift(s, pat, i);
    }
  }

  /** Python's `s.find(pat)`, with `None` for -1. */
  function Find(s: string, pat: string): (r: Option<nat>)
    ensures r.Some? ==> OccursAt(s, pat, r.value) && forall i | 0 <= i < r.value :: !OccursAt(s, pat, i)
    ensures r.None? ==> forall i :: !OccursAt(s, pat, i)
  {
    if pat <= s then Some(0)
    else if s == "" then None
    else
      OccurrencesShift(s, pat);
      var rest := Find(s[1..], pat);
      if rest.None? then None else Some(rest.value + 1)
  }

  /** `str.isspace` for one character. */
  predicate IsSpace(c: char) {
    || '\t' <= c <= '\r' || '\U{1c}' <= c <= ' ' || c == '\U{85}' || c == '\U{a0}' || c == '\U{1680}'
    || '\U{2000}' <= c <= '\U{200a}' || c == '\U{2028}' || c == '\U{2029}' || c == '\U{202f}'
    || c == '\U{205f}' || c == '\U{3000}'
  }

  function StripLeft(s: string): string {
    if s != "" && IsSpace(s[0]) then StripLeft(s[1..]) else s
  }

  function StripRight(s: string): string {
    if s != "" && IsSpace(s[|s| - 1]) then StripRight(s[..|s| - 1]) else s
  }

  function Strip(s: string): string {
    StripRight(StripLeft(s))
  }

  predicate Stripped(s: string) {
    s != "" ==> !IsSpace(s[0]) && !IsSpace(s[|s| - 1])
  }

  predicate AllSpace(s: string) {
    forall c | c in s :: IsSpace(c)
  }

  lemma {:induction false} StripLeftParts(s: string) returns (a: string)
    ensures s == a + StripLeft(s) && AllSpace(a)
    ensures StripLeft(s) != "" ==> !IsSpace(StripLeft(s)[0])
  {
    a := "";
    if s != "" && IsSpace(s[0]) {
      a := StripLeftParts(s[1..]);
      a := [s[0]] + a;
    }
  }

  lemma {:induction false} StripRightParts(s: string) returns (b: string)
    ensures s == StripRight(s) + b && AllSpace(b)
    ensures StripRight(s) != "" ==> !IsSpace(StripRight(s)[|StripRight(s)| - 1])
  {
    b := "";
    if s != "" && IsSpace(s[|s| - 1]) {
      b := StripRightParts(s[..|s| - 1]);
      b := b + [s[|s| - 1]];
    }
  }

  lemma StripParts(s: string) returns (a: string, b: string)
    ensures s == a + Strip(s) + b && AllSpace(a) && AllSpace(b) && Stripped(Strip(s))
  {
    a := StripLeftParts(s);
    b := StripRightParts(StripLeft(s));
  }

  lemma StripStripped(s: string)
    requires Stripped(s)
    ensures Strip(s) == s
  {
  }

  // ---- the merge ----

  predicate MarkerAt(s: string, i: int) {
    exists k | 0 <= k < |QUOTE_MARKERS| :: OccursAt(s, QUOTE_MARKERS[k], i)
  }

  predicate HasMarker(s: string) {
    exists i | 0 <= i < |s| :: MarkerAt(s, i)
  }

  /** Where the quoted chain starts: the first position at which some marker stands. */
  function QuoteIndex(s: string, i: nat): (r: Option<nat>)
    requires i <= |s|
    ensures r.Some? ==> i <= r.value < |s| && MarkerAt(s, r.value) && forall j | i <= j < r.value :: !MarkerAt(s, j)
    ensures r.None? ==> forall j | i <= j < |s| :: !MarkerAt(s, j)
    decreases |s| - i
  {
    if i == |s| then None
    else if MarkerAt(s, i) then Some(i)
    else QuoteIndex(s, i + 1)
  }

  function Quote(body: string): string {
    var i := QuoteIndex(body, 0);
    if i.None? then "" else Strip(body[i.value..])
  }

  function Combine(reply: string, quote: string): string {
    var merged := Strip(reply);
    if quote == "" then merged else if merged == "" then quote else merged + "\n\n" + quote
  }

  predicate HasHeader(content: string) {
    Find(content, SEPARATOR).Some?
  }

  function Header(content: string): string
    requires HasHeader(content)
  {
    content[..Find(content, SEPARATOR).value]
  }

  function Body(content: string): string
    requires HasHeader(content)
  {
    content[Find(content, SEPARATOR).value + |SEPARATOR|..]
  }

  function Merge(content: string, reply: string): string {
    if !HasHeader(content) then reply
    else Header(content) + SEPARATOR + Combine(reply, Quote(Body(content)))
  }

  lemma LeftmostMarker(body: string, index: Option<nat>)
    requires index.Some? ==> MarkerAt(body, index.value)
    requires forall k, j | 0 <= k < |QUOTE_MARKERS| && 0 <= j && (index.None? || j < index.value) ::
               !OccursAt(body, QUOTE_MARKERS[k], j)
    ensures index == QuoteIndex(body, 0)
  {
    forall j | 0 <= j && (index.None? || j < index.value) ensures !MarkerAt(body, j) {
    }
    if index.Some? {
      var k :| 0 <= k < |QUOTE_MARKERS| && OccursAt(body, QUOTE_MARKERS[k], index.value);
      MarkerFacts(k);
    }
  }

  /** The merge as the code does it, with a loop over the markers for the leftmost one. */
  method MergeEmailReplyBody(content: string, reply: string) returns (result: string)
    ensures result == Merge(content, reply)
  {
    if Find(content, SEPARATOR).None? {
      return reply;
    }
    var head, body := Header(content), Body(content);
    var index: Option<nat> := None;
    for k := 0 to |QUOTE_MARKERS|
      invariant index.Some? ==> exists m | 0 <= m < k :: OccursAt(body, QUOTE_MARKERS[m], index.value)
      invariant forall m, j | 0 <= m < k && 0 <= j && (index.None? || j < index.value) ::
                  !OccursAt(body, QUOTE_MARKERS[m], j)
    {
      var found := Find(body, QUOTE_MARKERS[k]);
      if found.Some? && (index.None? || found.value < index.value) {
        index := found;
      }
    }
    LeftmostMarker(body, index);
    var quote := if index.Some? then Strip(body[index.value..]) else "";
    var merged := Strip(reply);
    if quote != "" {
      merged := if merged != "" then merged + "\n\n" + quote else quote;
    }
    result := head + SEPARATOR + merged;
  }

  // ---- merging twice ----

  lemma MarkerFacts(k: nat)
    requires k < |QUOTE_MARKERS|
    ensures var m := QUOTE_MARKERS[k];
            && |m| > 0 && !IsSpace(m[0]) && !IsSpace(m[|m| - 1])
            && '\n' !in m
  {
  }

  lemma SpacesAround(a: string, s: string, b: string)
    requires AllSpace(a) && AllSpace(b)
    ensures forall i | 0 <= i < |a + s + b| && !(|a| <= i < |a + s|) :: IsSpace((a + s + b)[i])
  {
    forall i | 0 <= i < |a + s + b| && !(|a| <= i < |a + s|) ensures IsSpace((a + s + b)[i]) {
      if i < |a| {
        assert (a + s + b)[i] == a[i];
      } else {
        assert (a + s + b)[i] == b[i - |a + s|];
      }
    }
  }

  lemma OccursInPart(a: string, s: string, b: string, pat: string, i: nat)
    ensures OccursAt(s, pat, i) ==> OccursAt(a + s + b, pat, |a| + i)
    ensures i + |pat| <= |s| && OccursAt(a + s + b, pat, |a| + i) ==> OccursAt(s, pat, i)
  {
    if i + |pat| <= |s| {
      assert (a + s + b)[|a| + i..|a| + i + |pat|] == s[i..i + |pat|];
    }
  }

  /** A pattern without outer spaces occurs in a text exactly where it occurs in the stripped text. */
  lemma StripKeepsOccurrence(a: string, t: string, b: string, pat: string, i: nat)
    requires AllSpace(a) && AllSpace(b) && |pat| > 0 && !IsSpace(pat[0]) && !IsSpace(pat[|pat| - 1])
    requires OccursAt(a + t + b, pat, i)
    ensures |a| <= i && OccursAt(t, pat, i - |a|)
  {
    var s := a + t + b;
    assert s[i] == pat[0] && s[i + |pat| - 1] == pat[|pat| - 1];
    SpacesAround(a, t, b);
    assert |a| <= i && i + |pat| <= |a + t|;
    OccursInPart(a, t, b, pat, i - |a|);
  }

  /** Stripping a text neither hides nor creates quote markers. */
  lemma StripKeepsMarkers(s: string)
    ensures HasMarker(Strip(s)) <==> HasMarker(s)
  {
    var a, b := StripParts(s);
    var t := Strip(s);
    if HasMarker(t) {
      var i :| 0 <= i < |t| && MarkerAt(t, i);
      MarkerInside(a, t, b, i);
    }
    if HasMarker(s) {
      var i :| 0 <= i < |s| && MarkerAt(s, i);
      MarkerOutside(a, t, b, i);
    }
  }

  lemma MarkerInside(a: string, t: string, b: string, i: nat)
    requires MarkerAt(t, i)
    ensures MarkerAt(a + t + b, |a| + i)
  {
    var k :| 0 <= k < |QUOTE_MARKERS| && OccursAt(t, QUOTE_MARKERS[k], i);
    OccursInPart(a, t, b, QUOTE_MARKERS[k], i);
  }

  lemma MarkerOutside(a: string, t: string, b: string, i: nat)
    requires AllSpace(a) && AllSpace(b) && MarkerAt(a + t + b, i)
    ensures |a| <= i && MarkerAt(t, i - |a|)
  {
    var k :| 0 <= k < |QUOTE_MARKERS| && OccursAt(a + t + b, QUOTE_MARKERS[k], i);
    MarkerFacts(k);
    StripKeepsOccurrence(a, t, b, QUOTE_MARKERS[k], i);
  }

  /** A quoted chain is stripped text that starts with a marker, or nothing. */
  predicate IsQuote(q: string) {
    Stripped(q) && (q != "" ==> MarkerAt(q, 0))
  }

  /** Stripping keeps a start that has no outer spaces. */
  lemma StripKeepsStart(s: string, pat: string)
    requires |pat| > 0 && !IsSpace(pat[0]) && !IsSpace(pat[|pat| - 1]) && OccursAt(s, pat, 0)
    ensures OccursAt(Strip(s), pat, 0) && Stripped(Strip(s))
  {
    assert s[0] == pat[0] && s[|pat| - 1] == pat[|pat| - 1];
    assert StripLeft(s) == s;
    var b := StripRightParts(s);
    SpacesAround("", StripRight(s), b);
    assert "" + StripRight(s) + b == s;
    assert |StripRight(s)| >= |pat|;
    assert StripRight(s)[0..0 + |pat|] == s[0..0 + |pat|];
  }

  lemma SuffixFromMarker(body: string, i: nat)
    requires i < |body| && MarkerAt(body, i)
    ensures IsQuote(Strip(body[i..])) && Strip(body[i..]) != ""
  {
    var k :| 0 <= k < |QUOTE_MARKERS| && OccursAt(body, QUOTE_MARKERS[k], i);
    MarkerFacts(k);
    assert body[i..][0..0 + |QUOTE_MARKERS[k]|] == body[i..i + |QUOTE_MARKERS[k]|];
    StripKeepsStart(body[i..], QUOTE_MARKERS[k]);
  }

  lemma QuoteIsQuote(body: string)
    ensures IsQuote(Quote(body))
    ensures HasMarker(body) <==> Quote(body) != ""
  {
    var i := QuoteIndex(body, 0);
    if i.Some? {
      SuffixFromMarker(body, i.value);
    }
  }

  lemma OccurrenceChars(s: string, pat: string, i: nat)
    requires OccursAt(s, pat, i)
    ensures forall p | i <= p < i + |pat| :: s[p] in pat
  {
    forall p | i <= p < i + |pat| ensures s[p] in pat {
      assert s[i..i + |pat|][p - i] == s[p];
    }
  }

  lemma OccurrenceEndsBeforeBreak(r: string, rest: string, pat: string, i: nat)
    requires OccursAt(r + rest, pat, i) && |pat| > 0 && '\n' !in pat
    requires |rest| >= 2 && rest[0] == rest[1] == '\n' && i < |r| + 2
    ensures i < |r| && OccursAt(r, pat, i)
  {
    var s := r + rest;
    OccurrenceChars(s, pat, i);
    assert s[|r|] == '\n' && s[|r| + 1] == '\n';
    assert i + |pat| <= |r|;
    OccursInPart("", r, rest, pat, i);
    assert "" + r + rest == s;
  }

  /** A marker holds no line break, so one that starts before a break also ends before it. */
  lemma MarkerEndsBeforeBreak(r: string, rest: string, i: nat)
    requires MarkerAt(r + rest, i) && |rest| >= 2 && rest[0] == rest[1] == '\n' && i < |r| + 2
    ensures i < |r| && MarkerAt(r, i)
  {
    var k :| 0 <= k < |QUOTE_MARKERS| && OccursAt(r + rest, QUOTE_MARKERS[k], i);
    MarkerFacts(k);
    OccurrenceEndsBeforeBreak(r, rest, QUOTE_MARKERS[k], i);
  }

  lemma QuoteAfter(p: string, q: string)
    requires IsQuote(q) && q != "" && forall i | 0 <= i < |p| :: !MarkerAt(p + q, i)
    ensures Quote(p + q) == q
  {
    MarkerInside(p, q, "", 0);
    assert p + q + "" == p + q;
    assert (p + q)[|p|..] == q;
    StripStripped(q);
  }

  /** A reply without markers in front of a quote leaves the quote where it is found. */
  lemma QuoteOfCombined(reply: string, q: string)
    requires IsQuote(q) && !HasMarker(reply)
    ensures Quote(Combine(reply, q)) == q
  {
    var r := Strip(reply);
    StripKeepsMarkers(reply);
    if q != "" {
      var p := if r == "" then "" else r + "\n\n";
      assert Combine(reply, q) == p + q;
      forall i | 0 <= i < |p| ensures !MarkerAt(p + q, i) {
        assert p + q == r + ("\n\n" + q);
        if MarkerAt(p + q, i) {
          MarkerEndsBeforeBreak(r, "\n\n" + q, i);
        }
      }
      QuoteAfter(p, q);
    }
  }

  /** Text behind a header block is found again as the body, whatever it is. */
  lemma HeaderStays(content: string, body: string)
    requires HasHeader(content)
    ensures var c := Header(content) + SEPARATOR + body;
            HasHeader(c) && Header(c) == Header(content) && Body(c) == body
  {
    var h := Header(content);
    var n := |h|;
    var c := h + SEPARATOR + body;
    assert content[..n + |SEPARATOR|] == h + SEPARATOR;
    forall i | 0 <= i < n ensures !OccursAt(c, SEPARATOR, i) {
      var e := n + |SEPARATOR|;
      assert c[..e] == content[..e];
      assert c[i..i + |SEPARATOR|] == c[..e][i..i + |SEPARATOR|] == content[i..i + |SEPARATOR|];
      assert !OccursAt(content, SEPARATOR, i);
    }
    assert OccursAt(c, SEPARATOR, n);
    assert Find(c, SEPARATOR) == Some(n);
    assert c[..n] == h && c[n + |SEPARATOR|..] == body;
  }

  lemma MergeParts(content: string, reply: string)
    requires HasHeader(content)
    ensures var c := Merge(content, reply);
            && HasHeader(c) && Header(c) == Header(content)
            && Body(c) == Combine(reply, Quote(Body(content)))
  {
    HeaderStays(content, Combine(reply, Quote(Body(content))));
  }

  /** The last reply wins, and header and quoted chain stay, after a reply without markers. */
  lemma SecondMergeWins(content: string, r1: string, r2: string)
    requires HasHeader(content) && !HasMarker(r1)
    ensures Merge(Merge(content, r1), r2) == Merge(content, r2)
    ensures HasHeader(Merge(content, r1)) && Quote(Body(Merge(content, r1))) == Quote(Body(content))
  {
    MergeParts(content, r1);
    QuoteIsQuote(Body(content));
    QuoteOfCombined(r1, Quote(Body(content)));
  }

  /** In text that does not end in a space, the quote runs from the first marker to the end. */
  lemma QuoteRunsToEnd(s: string, i: nat)
    requires i < |s| && MarkerAt(s, i) && !IsSpace(s[|s| - 1])
    ensures |Quote(s)| >= |s| - i
  {
    var first := QuoteIndex(s, 0).value;
    var k :| 0 <= k < |QUOTE_MARKERS| && OccursAt(s, QUOTE_MARKERS[k], first);
    MarkerFacts(k);
    assert s[first] == QUOTE_MARKERS[k][0];
    StripStripped(s[first..]);
  }

  lemma MarkerOfStripped(reply: string) returns (i: nat)
    requires HasMarker(reply)
    ensures i < |Strip(reply)| && MarkerAt(Strip(reply), i) && Stripped(Strip(reply))
  {
    StripKeepsMarkers(reply);
    var _, _ := StripParts(reply);
    i :| 0 <= i < |Strip(reply)| && MarkerAt(Strip(reply), i);
  }

  lemma QuoteBehindMarker(r: string, q: string, i: nat)
    requires i < |r| && MarkerAt(r, i) && Stripped(q) && q != ""
    ensures |Quote(r + "\n\n" + q)| > |q|
  {
    var s := r + "\n\n" + q;
    assert s == r + ("\n\n" + q);
    MarkerInFront(r, "\n\n" + q, i);
    assert s[|s| - 1] == q[|q| - 1];
    QuoteRunsToEnd(s, i);
  }

  /** A marker inside the reply becomes part of the quoted chain, which only grows. */
  lemma MarkerGrowsQuote(reply: string, q: string)
    requires IsQuote(q) && HasMarker(reply)
    ensures |Quote(Combine(reply, q))| > |q|
  {
    var i := MarkerOfStripped(reply);
    if q == "" {
      QuoteRunsToEnd(Strip(reply), i);
    } else {
      QuoteBehindMarker(Strip(reply), q, i);
    }
  }

  lemma MarkerInFront(r: string, tail: string, i: nat)
    requires MarkerAt(r, i)
    ensures MarkerAt(r + tail, i)
  {
    MarkerInside("", r, tail, i);
    assert "" + r + tail == r + tail;
  }

  /** Exactly when merging twice is merging once: the first reply holds no quote marker. */
  lemma SecondMergeWinsIff(content: string, r1: string, r2: string)
    requires HasHeader(content)
    ensures Merge(Merge(content, r1), r2) == Merge(content, r2) <==> !HasMarker(r1)
  {
    if HasMarker(r1) {
      MergeParts(content, r1);
      QuoteIsQuote(Body(content));
      MarkerGrowsQuote(r1, Quote(Body(content)));
      assert |Merge(Merge(content, r1), r2)| > |Merge(content, r2)|;
    } else {
      SecondMergeWins(content, r1, r2);
    }
  }

  /** A merge keeps the header, and the quoted chain exactly if the reply holds no marker. */
  lemma QuoteAfterMerge(content: string, reply: string)
    requires HasHeader(content)
    ensures var c := Merge(content, reply);
            && HasHeader(c) && Header(c) == Header(content)
            && (Quote(Body(c)) == Quote(Body(content)) <==> !HasMarker(reply))
  {
    MergeParts(content, reply);
    QuoteIsQuote(Body(content));
    if HasMarker(reply) {
      MarkerGrowsQuote(reply, Quote(Body(content)));
    } else {
      QuoteOfCombined(reply, Quote(Body(content)));
    }
  }

  function MergeAll(content: string, replies: seq<string>): string
    decreases |replies|
  {
    if replies == [] then content else MergeAll(Merge(content, replies[0]), replies[1..])
  }

  /** `c` is `content` with only `last` merged, under the same header, and over the same quoted chain
      exactly if `last` holds no marker. */
  predicate LastWon(content: string, last: string, c: string)
    requires HasHeader(content)
  {
    && c == Merge(content, last)
    && HasHeader(c) && Header(c) == Header(content)
    && (Quote(Body(c)) == Quote(Body(content)) <==> !HasMarker(last))
  }

  lemma EarlierMergeIsLost(content: string, first: string, last: string, c: string)
    requires HasHeader(content) && !HasMarker(first)
    ensures HasHeader(Merge(content, first))
    ensures LastWon(Merge(content, first), last, c) ==> LastWon(content, last, c)
  {
    QuoteAfterMerge(content, first);
    SecondMergeWins(content, first, last);
  }

  lemma MergedOnceWins(content: string, last: string)
    requires HasHeader(content)
    ensures HasHeader(Merge(content, last)) && LastWon(content, last, Merge(content, last))
  {
    QuoteAfterMerge(content, last);
  }

  /** None of the replies before the last holds a marker. */
  predicate EarlierMarkerFree(replies: seq<string>) {
    forall n | 0 <= n < |replies| - 1 :: !HasMarker(replies[n])
  }

  lemma EarlierMarkerFreeRest(replies: seq<string>)
    requires |replies| > 1 && EarlierMarkerFree(replies)
    ensures !HasMarker(replies[0]) && EarlierMarkerFree(replies[1..])
    ensures replies[1..][|replies[1..]| - 1] == replies[|replies| - 1]
  {
  }

  lemma MergeAllUnfolds(content: string, replies: seq<string>)
    requires replies != []
    ensures MergeAll(content, replies)
         == if |replies| == 1 then Merge(content, replies[0]) else MergeAll(Merge(content, replies[0]), replies[1..])
  {
    if |replies| == 1 {
      assert replies[1..] == [];
    }
  }

  /** After any number of merges the last reply has won, if those before it hold no markers. */
  lemma {:induction false} LastMergeWins(content: string, replies: seq<string>)
    requires HasHeader(content) && replies != [] && EarlierMarkerFree(replies)
    ensures LastWon(content, replies[|replies| - 1], MergeAll(content, replies))
    decreases |replies|
  {
    var first, last := replies[0], replies[|replies| - 1];
    var c, all := Merge(content, first), MergeAll(content, replies);
    MergeAllUnfolds(content, replies);
    MergedOnceWins(content, first);
    if |replies| > 1 {
      EarlierMarkerFreeRest(replies);
      LastMergeWins(c, replies[1..]);
      EarlierMergeIsLost(content, first, last, all);
    }
  }

  // ---- the reply is there to be read ----

  /** What stands above the quoted chain. */
  function Editable(body: string): string {
    var i := QuoteIndex(body, 0);
    Strip(if i.Some? then body[..i.value] else body)
  }

  lemma {:induction false} StripDropsEnd(r: string, w: string)
    requires Stripped(r) && r != "" && AllSpace(w)
    ensures StripRight(r + w) == r && Strip(r + w) == r
    decreases |w|
  {
    if w == "" {
      assert r + w == r;
    } else {
      StripDropsEnd(r, w[..|w| - 1]);
      assert (r + w)[..|r + w| - 1] == r + w[..|w| - 1];
    }
  }

  lemma EditableOfCombined(reply: string, q: string)
    requires IsQuote(q) && !HasMarker(reply)
    ensures Editable(Combine(reply, q)) == Strip(reply)
  {
    var r := Strip(reply);
    var _, _ := StripParts(reply);
    StripKeepsMarkers(reply);
    StripStripped(r);
    if q != "" && r != "" {
      QuoteStartsAt(r, "\n\n", q);
      StripDropsEnd(r, "\n\n");
    } else if q != "" {
      QuoteIndexIs(q, 0, 0);
    }
  }

  lemma {:induction false} QuoteIndexIs(s: string, i: nat, n: nat)
    requires i <= n < |s| && MarkerAt(s, n) && forall j | i <= j < n :: !MarkerAt(s, j)
    ensures QuoteIndex(s, i) == Some(n)
    decreases n - i
  {
    if i < n {
      QuoteIndexIs(s, i + 1, n);
    }
  }

  lemma NoMarkerBeforeQuote(r: string, rest: string, s: string)
    requires !HasMarker(r) && |rest| >= 2 && rest[0] == rest[1] == '\n' && s == r + rest
    ensures forall i | 0 <= i < |r| + 2 :: !MarkerAt(s, i)
  {
    forall i | 0 <= i < |r| + 2 ensures !MarkerAt(s, i) {
      if MarkerAt(s, i) {
        MarkerEndsBeforeBreak(r, rest, i);
      }
    }
  }

  lemma MarkerBehind(p: string, q: string)
    requires MarkerAt(q, 0)
    ensures MarkerAt(p + q, |p|)
  {
    MarkerInside(p, q, "", 0);
    assert p + q + "" == p + q;
  }

  lemma QuoteStartsAfter(p: string, q: string)
    requires MarkerAt(q, 0) && q != "" && forall i | 0 <= i < |p| :: !MarkerAt(p + q, i)
    ensures QuoteIndex(p + q, 0) == Some(|p|) && (p + q)[..|p|] == p
  {
    MarkerBehind(p, q);
    QuoteIndexIs(p + q, 0, |p|);
  }

  lemma QuoteStartsAt(r: string, gap: string, q: string)
    requires MarkerAt(q, 0) && q != "" && !HasMarker(r) && |gap| == 2 && gap[0] == gap[1] == '\n'
    ensures QuoteIndex(r + gap + q, 0) == Some(|r| + 2) && (r + gap + q)[..|r| + 2] == r + gap
  {
    assert r + gap + q == r + (gap + q);
    NoMarkerBeforeQuote(r, gap + q, r + gap + q);
    QuoteStartsAfter(r + gap, q);
  }

  /** Reading the reply back: a reply without markers is, up to outer spaces, exactly what stands above
      the quoted chain afterwards; and without a header block the reply becomes the whole document. */
  lemma ReplyReadsBack(content: string, reply: string)
    ensures HasHeader(content) && !HasMarker(reply) ==>
      HasHeader(Merge(content, reply)) && Editable(Body(Merge(content, reply))) == Strip(reply)
    ensures !HasHeader(content) ==> Merge(content, reply) == reply
  {
    if HasHeader(content) && !HasMarker(reply) {
      MergeParts(content, reply);
      QuoteIsQuote(Body(content));
      EditableOfCombined(reply, Quote(Body(content)));
    }
  }

  // ---- building the document ----

  /** The header fields of a draft; an empty string stands for a missing optional field. */
  datatype Fields = Fields(
    to: string, cc: string, bcc: string, subject: string, inReplyTo: string, references: string,
    sourceUid: string, sourceFolder: string)

  function Optional(name: string, value: string): seq<string> {
    if value == "" then [] else [name + value]
  }

  function HeaderLines(f: Fields): seq<string> {
    ["To: " + f.to] + Optional("Cc: ", f.cc) + Optional("Bcc: ", f.bcc) + ["Subject: " + f.subject]
    + Optional("In-Reply-To: ", f.inReplyTo) + Optional("References: ", f.references)
    + Optional("X-Source-UID: ", f.sourceUid) + Optional("X-Source-Folder: ", f.sourceFolder)
  }

  function Join(lines: seq<string>): string
    requires lines != []
  {
    if |lines| == 1 then lines[0] else lines[0] + "\n" + Join(lines[1..])
  }

  function Build(f: Fields, body: string): string {
    Join(HeaderLines(f)) + SEPARATOR + body
  }

  predicate SingleLine(s: string) {
    '\n' !in s
  }

  predicate OneLineEach(f: Fields) {
    && SingleLine(f.to) && SingleLine(f.cc) && SingleLine(f.bcc) && SingleLine(f.subject)
    && SingleLine(f.inReplyTo) && SingleLine(f.references) && SingleLine(f.sourceUid) && SingleLine(f.sourceFolder)
  }

  /** A header line: no break inside, and not starting like the separator's dashes. */
  predicate HeaderLine(line: string) {
    line != "" && SingleLine(line) && line[0] != '-'
  }

  lemma {:induction false} NoDashAfterBreak(lines: seq<string>, i: nat)
    requires lines != [] && forall n | 0 <= n < |lines| :: HeaderLine(lines[n])
    requires i < |Join(lines)| && Join(lines)[i] == '\n'
    ensures i + 1 < |Join(lines)| && Join(lines)[i + 1] != '-'
  {
    var first := lines[0];
    if |lines| > 1 {
      var rest := Join(lines[1..]);
      assert rest != "" && rest[0] == lines[1][0];
      assert Join(lines) == first + "\n" + rest;
      if i > |first| {
        NoDashAfterBreak(lines[1..], i - |first| - 1);
      }
    }
  }

  /** The separator a built document starts its body with is the one a merge will find. */
  lemma BuiltHeaderIsFound(f: Fields, body: string)
    requires OneLineEach(f)
    ensures var c := Build(f, body);
            HasHeader(c) && Header(c) == Join(HeaderLines(f)) && Body(c) == body
  {
    var h := Join(HeaderLines(f));
    var c := Build(f, body);
    forall i | 0 <= i < |h| ensures !OccursAt(c, SEPARATOR, i) {
      if OccursAt(c, SEPARATOR, i) {
        assert c[i] == SEPARATOR[0] && c[i + 1] == SEPARATOR[1];
        NoDashAfterBreak(HeaderLines(f), i);
      }
    }
    assert OccursAt(c, SEPARATOR, |h|);
    assert Find(c, SEPARATOR) == Some(|h|);
  }

  /** Merging a reply into a freshly built draft keeps every header line and the quoted part of the
      body it was built with. */
  lemma BuildThenMerge(f: Fields, body: string, reply: string)
    requires OneLineEach(f)
    ensures Merge(Build(f, body), reply) == Build(f, Combine(reply, Quote(body)))
  {
    BuiltHeaderIsFound(f, body);
  }

  // ---- reading a built document ----

  /** The lines of a text. */
  function Split(text: string): (lines: seq<string>)
    ensures lines != []
  {
    if text == "" then [""]
    else
      var rest := Split(text[1..]);
      if text[0] == '\n' then [""] + rest else [[text[0]] + rest[0]] + rest[1..]
  }

  /** What the first line that starts with `name` says. */
  function FieldOf(lines: seq<string>, name: string): string {
    if lines == [] then ""
    else if name <= lines[0] then lines[0][|name|..]
    else FieldOf(lines[1..], name)
  }

  function ReadFields(lines: seq<string>): Fields {
    Fields(FieldOf(lines, "To: "), FieldOf(lines, "Cc: "), FieldOf(lines, "Bcc: "), FieldOf(lines, "Subject: "),
           FieldOf(lines, "In-Reply-To: "), FieldOf(lines, "References: "),
           FieldOf(lines, "X-Source-UID: "), FieldOf(lines, "X-Source-Folder: "))
  }

  lemma {:induction false} SplitLine(line: string, text: string)
    requires SingleLine(line)
    ensures Split(line + "\n" + text) == [line] + Split(text)
  {
    if line == "" {
      assert line + "\n" + text == "\n" + text;
      assert ("\n" + text)[1..] == text;
    } else {
      SplitLine(line[1..], text);
      assert (line + "\n" + text)[1..] == line[1..] + "\n" + text;
      assert line == [line[0]] + line[1..];
    }
  }

  lemma {:induction false} SplitSingle(line: string)
    requires SingleLine(line)
    ensures Split(line) == [line]
  {
    if line != "" {
      SplitSingle(line[1..]);
      assert line == [line[0]] + line[1..];
    }
  }

  lemma {:induction false} SplitJoined(lines: seq<string>)
    requires lines != [] && forall n | 0 <= n < |lines| :: SingleLine(lines[n])
    ensures Split(Join(lines)) == lines
  {
    if |lines| == 1 {
      SplitSingle(lines[0]);
    } else {
      SplitJoined(lines[1..]);
      SplitLine(lines[0], Join(lines[1..]));
    }
  }

  lemma {:induction false} FieldIsFound(lines: seq<string>, name: string, value: string)
    requires forall n | 0 <= n < |lines| && name <= lines[n] :: lines[n] == name + value
    requires value != "" ==> name + value in lines
    ensures FieldOf(lines, name) == value
  {
    if lines != [] {
      if name <= lines[0] {
        assert (name + value)[|name|..] == value;
      } else {
        assert lines == [lines[0]] + lines[1..];
        FieldIsFound(lines[1..], name, value);
      }
    }
  }

  const NAMES: seq<string> := [
    "To: ", "Cc: ", "Bcc: ", "Subject: ", "In-Reply-To: ", "References: ", "X-Source-UID: ", "X-Source-Folder: "]

  function Values(f: Fields): (values: seq<string>)
    ensures |values| == |NAMES|
  {
    [f.to, f.cc, f.bcc, f.subject, f.inReplyTo, f.references, f.sourceUid, f.sourceFolder]
  }

  lemma NamesDiffer(i: nat, j: nat, value: string)
    requires i < |NAMES| && j < |NAMES| && i != j
    ensures !(NAMES[i] <= NAMES[j] + value)
  {
    var k := if i >= 6 && j >= 6 then 9 else 0;
    assert NAMES[i][k] != NAMES[j][k];
    assert (NAMES[j] + value)[k] == NAMES[j][k];
  }

  lemma LinesAre(f: Fields, line: string) returns (j: nat)
    requires line in HeaderLines(f)
    ensures j < |NAMES| && line == NAMES[j] + Values(f)[j]
  {
    if line == "To: " + f.to { j := 0; }
    else if line == "Cc: " + f.cc { j := 1; }
    else if line == "Bcc: " + f.bcc { j := 2; }
    else if line == "Subject: " + f.subject { j := 3; }
    else if line == "In-Reply-To: " + f.inReplyTo { j := 4; }
    else if line == "References: " + f.references { j := 5; }
    else if line == "X-Source-UID: " + f.sourceUid { j := 6; }
    else { j := 7; }
  }

  lemma HasLine(f: Fields, j: nat)
    requires j < |NAMES| && Values(f)[j] != ""
    ensures NAMES[j] + Values(f)[j] in HeaderLines(f)
  {
  }

  lemma FieldReadsBack(f: Fields, i: nat)
    requires i < |NAMES|
    ensures FieldOf(HeaderLines(f), NAMES[i]) == Values(f)[i]
  {
    var lines := HeaderLines(f);
    forall n | 0 <= n < |lines| && NAMES[i] <= lines[n] ensures lines[n] == NAMES[i] + Values(f)[i] {
      var j := LinesAre(f, lines[n]);
      if j != i {
        NamesDiffer(i, j, Values(f)[j]);
      }
    }
    if Values(f)[i] != "" {
      HasLine(f, i);
    }
    FieldIsFound(lines, NAMES[i], Values(f)[i]);
  }

  /** A draft can be read back: its header block says exactly the fields it was built from, and what
      follows the separator is the body. */
  lemma BuiltDraftReadsBack(f: Fields, body: string)
    requires OneLineEach(f)
    ensures var c := Build(f, body);
            HasHeader(c) && ReadFields(Split(Header(c))) == f && Body(c) == body
  {
    BuiltHeaderIsFound(f, body);
    SplitJoined(HeaderLines(f));
    FieldReadsBack(f, 0);
    FieldReadsBack(f, 1);
    FieldReadsBack(f, 2);
    FieldReadsBack(f, 3);
    FieldReadsBack(f, 4);
    FieldReadsBack(f, 5);
    FieldReadsBack(f, 6);
    FieldReadsBack(f, 7);
  }
}
