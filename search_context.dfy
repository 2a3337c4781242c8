/**
 * Context extraction for a search hit: the widest matched range of a field,
 * the matched text itself, and a bounded window of text around it.
 * Every substring operation is JavaScript's `slice`, with its quirks.
 */
module SearchContext {
  import opened Wrappers
  import opened JsString

  /** Width budget of a context window, in characters. */
  const CONTEXT_SIZE: int := 80

  /** An inclusive character range `[start, end]` reported by the search index. */
  datatype Range = Range(start: int, end: int)

  /** One matched field: its name and the ranges matched within it. */
  datatype MatchEntry = MatchEntry(key: string, indices: seq<Range>)

  /** A searchable document, by field name. */
  type Item = map<string, string>

  /** A hit of the search index: the document and its matched fields, best first. */
  datatype SearchResult = SearchResult(item: Item, matches: seq<MatchEntry>)

  /** The snippet shown under a result's title. */
  datatype Context = Context(matched: string, before: string, after: string)

  /** The quantity `maxBy` maximises. */
  function Width(r: Range): int {
    r.end - r.start
  }

  /**
   * Position of the range `maxBy` picks: a scan from the left that replaces the
   * current best only by a strictly wider range, so the first widest range wins.
   */
  function BestIndexPos(indices: seq<Range>): (k: nat)
    requires |indices| > 0
    ensures k < |indices|
    ensures forall j :: 0 <= j < |indices| ==> Width(indices[j]) <= Width(indices[k])
    ensures forall j :: 0 <= j < k ==> Width(indices[j]) < Width(indices[k])
  {
    if |indices| == 1 then 0
    else
      var k := BestIndexPos(indices[..|indices| - 1]);
      if Width(indices[|indices| - 1]) > Width(indices[k]) then |indices| - 1 else k
  }

  /** `getBestIndex`: the first range of maximal width. */
  function BestIndex(indices: seq<Range>): Range
    requires |indices| > 0
  {
    indices[BestIndexPos(indices)]
  }

  /** The matched text: the inclusive range `[start, end]` of the field. */
  function MatchText(field: string, best: Range): (r: string)
    ensures 0 <= best.start <= best.end < |field| ==>
              |r| == Width(best) + 1 && RunAt(field, best.start, r)
  {
    Slice(field, best.start, best.end + 1)
  }

  /** The text before the match, before trimming. */
  function Before(field: string, start: int): (r: string)
    ensures |r| <= CONTEXT_SIZE
    // a run that ends exactly at `start`
    ensures 0 <= start <= |field| ==> |r| <= start && RunAt(field, start - |r|, r)
  {
    Slice(field, start - CONTEXT_SIZE, start)
  }

  /**
   * How much of the text before the match is kept: all 80 characters when there
   * are that many, but a negative `start - 80` counts from the end of the field,
   * so near the start of a long field nothing is kept, and of a short one
   * fewer characters than precede the match.
   */
  lemma BeforeLength(field: string, start: int)
    requires 0 <= start <= |field|
    ensures CONTEXT_SIZE <= start ==> |Before(field, start)| == CONTEXT_SIZE
    ensures |field| + start <= CONTEXT_SIZE ==> Before(field, start) == field[..start]
    ensures start < CONTEXT_SIZE <= |field| ==> Before(field, start) == ""
    ensures |field| < CONTEXT_SIZE < |field| + start ==> |Before(field, start)| == CONTEXT_SIZE - |field| < start
  {
    var r := Before(field, start);
    if |field| + start <= CONTEXT_SIZE {
      RunAtSlice(field, start - |r|, r);
    }
  }

  /** The text after the match, before trimming: one character short of the budget. */
  function After(field: string, end: int): (r: string)
    ensures |r| < CONTEXT_SIZE
    // a run that starts right after the match
    ensures 0 <= end + 1 <= |field| ==> RunAt(field, end + 1, r)
  {
    Slice(field, end + 1, end + CONTEXT_SIZE)
  }

  /** How much of the text after the match is kept: at most 79 characters, all when the field ends sooner. */
  lemma AfterLength(field: string, end: int)
    requires 0 <= end + 1 <= |field|
    ensures end + CONTEXT_SIZE <= |field| ==> |After(field, end)| == CONTEXT_SIZE - 1
    ensures |field| <= end + CONTEXT_SIZE ==> After(field, end) == field[end + 1..]
  {
    RunAtSlice(field, end + 1, After(field, end));
  }

  /** Characters kept on each side when the snippet is too long (`Math.floor` of a halving). */
  function Padding(matchLength: int): int {
    (CONTEXT_SIZE - matchLength) / 2
  }

  /** Trimming of `before` and `after` around `matched`. */
  function Abridge(matched: string, before: string, after: string): (r: (string, string))
    // what is kept is a tail of `before` and a head of `after`
    ensures |r.0| <= |before| && RunAt(before, |before| - |r.0|, r.0)
    ensures RunAt(after, 0, r.1)
    // short enough: untouched
    ensures |matched| + |before| + |after| <= CONTEXT_SIZE ==> r == (before, after)
    // too long, with a match that fits: trimmed to the budget
    ensures |matched| + |before| + |after| > CONTEXT_SIZE && |matched| <= CONTEXT_SIZE ==>
              |r.0| + |matched| + |r.1| <= CONTEXT_SIZE
    // too long, with a longer match: `before` is dropped and the budget is still exceeded
    ensures |matched| + |before| + |after| > CONTEXT_SIZE && |matched| > CONTEXT_SIZE ==>
              r.0 == "" && |r.0| + |matched| + |r.1| > CONTEXT_SIZE
  {
    if |matched| + |before| + |after| > CONTEXT_SIZE then
      var padding := Padding(|matched|);
      (SliceFrom(before, |before| - padding), Slice(after, 0, padding))
    else
      (before, after)
  }

  /** With a padding of at least zero, the kept lengths, including the shortfall of `before`. */
  lemma AbridgeKeptLengths(matched: string, before: string, after: string)
    requires |matched| + |before| + |after| > CONTEXT_SIZE && 0 <= Padding(|matched|)
    ensures var r, p := Abridge(matched, before, after), Padding(|matched|);
            |r.0| == (if p <= |before| then p else if p <= 2 * |before| then p - |before| else |before|) &&
            |r.1| == (if p <= |after| then p else |after|)
  {
  }

  /** With a negative padding (a match longer than the budget), `after` loses its last characters. */
  lemma AbridgeNegativePadding(matched: string, before: string, after: string)
    requires |matched| + |before| + |after| > CONTEXT_SIZE && Padding(|matched|) < 0
    ensures var r, p := Abridge(matched, before, after), Padding(|matched|);
            r.0 == "" && r.1 == after[..if |after| + p < 0 then 0 else |after| + p]
  {
    RunAtSlice(after, 0, Abridge(matched, before, after).1);
  }

  /** What `getContext` needs of its arguments: a field to read and a range to pick. */
  predicate ContextDefined(item: Item, m: MatchEntry) {
    m.key != "title" ==> m.key in item && |m.indices| > 0
  }

  /** The snippet for the range `best` of `field`. */
  function Window(field: string, best: Range): (c: Context)
    ensures |c.before| <= CONTEXT_SIZE && |c.after| < CONTEXT_SIZE
    ensures |c.matched| <= CONTEXT_SIZE ==> |c.before| + |c.matched| + |c.after| <= CONTEXT_SIZE
  {
    var matched := MatchText(field, best);
    var trimmed := Abridge(matched, Before(field, best.start), After(field, best.end));
    Context(MatchText(field, best), trimmed.0, trimmed.1)
  }

  /** `getContext`: no snippet for a title match, otherwise the trimmed window around the widest range. */
  function GetContext(item: Item, m: MatchEntry): (r: Option<Context>)
    requires ContextDefined(item, m)
    ensures r.None? <==> m.key == "title"
    ensures r.Some? ==> |r.value.before| <= CONTEXT_SIZE && |r.value.after| < CONTEXT_SIZE
    ensures r.Some? && |r.value.matched| <= CONTEXT_SIZE ==>
              |r.value.before| + |r.value.matched| + |r.value.after| <= CONTEXT_SIZE
  {
    if m.key == "title" then None else Some(Window(item[m.key], BestIndex(m.indices)))
  }

  /**
   * For a range inside the field, the snippet is the matched range itself with
   * a contiguous run of the field on either side: the whole of it occurs in the
   * field, starting where the kept text before the match starts.
   */
  lemma ContextIsContiguous(field: string, best: Range)
    requires 0 <= best.start <= best.end < |field|
    ensures var c := Window(field, best);
            c.matched == field[best.start..best.end + 1] &&
            RunAt(field, best.start - |c.before|, c.before + c.matched + c.after)
  {
    var c := Window(field, best);
    WindowBeforeIsRun(field, best);
    WindowAfterIsRun(field, best);
    RunAtSlice(field, best.start, c.matched);
    RunsJoin(field, best.start - |c.before|, c.before, c.matched, c.after);
  }

  /**
   * End to end: for a non-title match whose widest range lies inside the field,
   * the snippet's match is the text of that range, and the snippet as a whole
   * is one run of the field.
   */
  lemma ContextAroundBestRange(item: Item, m: MatchEntry)
    requires m.key != "title" && m.key in item && |m.indices| > 0
    requires var b := BestIndex(m.indices); 0 <= b.start <= b.end < |item[m.key]|
    ensures var field, b, c := item[m.key], BestIndex(m.indices), GetContext(item, m).value;
            c.matched == field[b.start..b.end + 1] &&
            RunAt(field, b.start - |c.before|, c.before + c.matched + c.after)
  {
    ContextIsContiguous(item[m.key], BestIndex(m.indices));
  }

  /** The kept text before the match is a run of the field that ends where the match starts. */
  lemma WindowBeforeIsRun(field: string, best: Range)
    requires 0 <= best.start <= |field|
    ensures var c := Window(field, best);
            |c.before| <= best.start && RunAt(field, best.start - |c.before|, c.before)
  {
    KeptBeforeIsRun(field, best.start, MatchText(field, best), After(field, best.end));
  }

  /** Whatever the match and the text after it, the kept part of `Before` ends at `start`. */
  lemma KeptBeforeIsRun(field: string, start: int, matched: string, after: string)
    requires 0 <= start <= |field|
    ensures var kept := Abridge(matched, Before(field, start), after).0;
            |kept| <= start && RunAt(field, start - |kept|, kept)
  {
    var before := Before(field, start);
    var kept := Abridge(matched, before, after).0;
    RunAtWithin(field, start - |before|, before, |before| - |kept|, kept);
  }

  /** The kept text after the match is a run of the field that starts right after the match. */
  lemma WindowAfterIsRun(field: string, best: Range)
    requires 0 <= best.end + 1 <= |field|
    ensures var c := Window(field, best);
            RunAt(field, best.end + 1, c.after)
  {
    KeptAfterIsRun(field, best.end, MatchText(field, best), Before(field, best.start));
  }

  /** Whatever the match and the text before it, the kept part of `After` starts right after `end`. */
  lemma KeptAfterIsRun(field: string, end: int, matched: string, before: string)
    requires 0 <= end + 1 <= |field|
    ensures RunAt(field, end + 1, Abridge(matched, before, After(field, end)).1)
  {
    var after := After(field, end);
    RunAtWithin(field, end + 1, after, 0, Abridge(matched, before, after).1);
  }

  /** When the unabridged snippet fits, `before` and `after` are the untrimmed slices. */
  lemma ContextUntrimmedWhenShort(field: string, best: Range)
    requires |MatchText(field, best)| + |Before(field, best.start)| + |After(field, best.end)| <= CONTEXT_SIZE
    ensures Window(field, best).before == Before(field, best.start)
    ensures Window(field, best).after == After(field, best.end)
  {
  }
}
