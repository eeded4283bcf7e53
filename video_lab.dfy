/** The forensic video page's reading of the model's tagged reply
    (pages/VideoLab.tsx): five fixed tags pulled out of free text, each with a
    sentinel when missing, and the verdict badge chosen from the verdict text. */
module VideoLab {
  import opened Text

  /** The value a field takes when its tag is missing. */
  const Sentinel := "Data Unavailable"

  datatype ParsedReport = ParsedReport(verdict: string, confidence: string, visual: string, psych: string, flags: string)

  /** A tag name as the page uses it: no brackets, so that `[` + name + `]`
      is a marker that cannot overlap itself. */
  predicate IsTagName(tag: string) {
    '[' !in tag && ']' !in tag
  }

  /** Where the captured text starts: just past the marker found at `i` and
      one optional `:`. */
  function ValueStart(raw: string, i: nat, tag: string): (v: nat)
    requires i + |Bracketed(tag)| <= |raw|
    ensures i + |Bracketed(tag)| <= v <= |raw|
  {
    var p := i + |Bracketed(tag)|;
    if p < |raw| && raw[p] == ':' then p + 1 else p
  }

  /** `extract(tag)`: the match of `\[TAG\]:?\s*(.*?)(?=\s*\[|$)` with the
      `s` flag, trimmed, or the sentinel when the marker is absent. The match
      begins at the first marker; the capture runs to the first `[` after it,
      whatever follows that bracket, or to the end of the text. */
  function Extract(raw: string, tag: string): (r: string)
    ensures !Occurs(raw, Bracketed(tag)) ==> r == Sentinel
    ensures Occurs(raw, Bracketed(tag)) ==> '[' !in r && IsTrimmed(r)
  {
    match IndexOf(raw, Bracketed(tag))
    case None => Sentinel
    case Some(i) => FieldAt(raw, i, tag)
  }

  /** The trimmed capture for the marker found at `i`. */
  function FieldAt(raw: string, i: nat, tag: string): (r: string)
    requires i + |Bracketed(tag)| <= |raw|
    ensures '[' !in r && IsTrimmed(r)
  {
    var c := Capture(raw, i, tag);
    TrimKeepsChars(c);
    Trim(c)
  }

  /** The text the capture group spans before trimming: from the value's start
      up to the first `[` or the end. */
  function Capture(raw: string, i: nat, tag: string): (r: string)
    requires i + |Bracketed(tag)| <= |raw|
    ensures '[' !in r
  {
    var v := ValueStart(raw, i, tag);
    raw[v..FindChar(raw, '[', v)]
  }

  /** What a field holds: the fallback when its marker is missing, otherwise
      trimmed text that runs to no further bracket. */
  predicate FieldOf(raw: string, tag: string, value: string) {
    if Occurs(raw, Bracketed(tag)) then '[' !in value && IsTrimmed(value)
    else value == Sentinel
  }

  /** `parseReport`: each field from its own fixed tag. */
  function ParseReport(raw: string): (r: ParsedReport)
    ensures FieldOf(raw, "VERDICT", r.verdict)
    ensures FieldOf(raw, "CONFIDENCE", r.confidence)
    ensures FieldOf(raw, "VISUAL_INTEGRITY", r.visual)
    ensures FieldOf(raw, "PSYCHOLOGICAL_ANALYSIS", r.psych)
    ensures FieldOf(raw, "TECHNICAL_FLAGS", r.flags)
  {
    ParsedReport(
      Extract(raw, "VERDICT"),
      Extract(raw, "CONFIDENCE"),
      Extract(raw, "VISUAL_INTEGRITY"),
      Extract(raw, "PSYCHOLOGICAL_ANALYSIS"),
      Extract(raw, "TECHNICAL_FLAGS"))
  }

  // ---------------------------------------------------------------------
  // The regular expression, step by step

  /** Greedy `\s*` from `k`. */
  function SkipSpace(s: string, k: nat): (r: nat)
    requires k <= |s|
    ensures k <= r <= |s| && IsBlank(s[k..r])
    ensures r == |s| || !IsSpace(s[r])
    decreases |s| - k
  {
    if k < |s| && IsSpace(s[k]) then
      var r := SkipSpace(s, k + 1);
      assert s[k..r] == [s[k]] + s[k + 1..r];
      r
    else k
  }

  /** The lookahead `(?=\s*\[|$)` at position `q` (no `m` flag, so `$` is the
      end of the text only). */
  predicate LookaheadAt(s: string, q: nat)
    requires q <= |s|
  {
    q == |s| || (SkipSpace(s, q) < |s| && s[SkipSpace(s, q)] == '[')
  }

  /** The lazy `(.*?)`: the first position from `k` where the lookahead holds. */
  function LazyEnd(s: string, k: nat): (q: nat)
    requires k <= |s|
    ensures k <= q <= |s| && LookaheadAt(s, q)
    ensures forall m :: k <= m < q ==> !LookaheadAt(s, m)
    decreases |s| - k
  {
    if LookaheadAt(s, k) then k else LazyEnd(s, k + 1)
  }

  /** The capture group as the regular expression defines it, trimmed. */
  function RegexExtract(raw: string, tag: string): string {
    match IndexOf(raw, Bracketed(tag))
    case None => Sentinel
    case Some(i) =>
      var g := SkipSpace(raw, ValueStart(raw, i, tag));
      Trim(raw[g..LazyEnd(raw, g)])
  }

  /** The greedy whitespace from `c` stops at or before the first bracket,
      and the search for that bracket may start where it stops. */
  lemma SkipSpaceBeforeBracket(raw: string, c: nat)
    requires c <= |raw|
    ensures SkipSpace(raw, c) <= FindChar(raw, '[', c)
    ensures FindChar(raw, '[', SkipSpace(raw, c)) == FindChar(raw, '[', c)
  {
    var g := SkipSpace(raw, c);
    forall k | c <= k < g ensures raw[k] != '[' {
      assert raw[c..g][k - c] == raw[k];
    }
  }

  /** The lazy capture from `g` ends at or before the first bracket, with only
      whitespace between its end and that bracket. */
  lemma LazyEndBeforeBracket(raw: string, g: nat)
    requires g <= |raw|
    ensures LazyEnd(raw, g) <= FindChar(raw, '[', g)
    ensures IsBlank(raw[LazyEnd(raw, g)..FindChar(raw, '[', g)])
  {
    var b := FindChar(raw, '[', g);
    var q := LazyEnd(raw, g);
    assert LookaheadAt(raw, b);
    if q < |raw| {
      var t := SkipSpace(raw, q);
      assert raw[t] == '[';
      forall j | q <= j < b ensures IsSpace(raw[j]) {
        assert raw[q..t][j - q] == raw[j];
      }
    }
  }

  /** The string function computes exactly what the regular expression captures. */
  lemma RegexAgrees(raw: string, tag: string)
    ensures Extract(raw, tag) == RegexExtract(raw, tag)
  {
    match IndexOf(raw, Bracketed(tag))
    case None =>
    case Some(i) =>
      var c := ValueStart(raw, i, tag);
      var g := SkipSpace(raw, c);
      SkipSpaceBeforeBracket(raw, c);
      LazyEndBeforeBracket(raw, g);
      var b := FindChar(raw, '[', c);
      var q := LazyEnd(raw, g);
      TrimAroundCapture(raw, c, g, q, b);
      assert Extract(raw, tag) == Trim(raw[c..b]);
      assert RegexExtract(raw, tag) == Trim(raw[g..q]);
  }

  lemma TrimAroundCapture(raw: string, c: nat, g: nat, q: nat, b: nat)
    requires c <= g <= q <= b <= |raw|
    requires IsBlank(raw[c..g]) && IsBlank(raw[q..b])
    ensures Trim(raw[c..b]) == Trim(raw[g..q])
  {
    assert raw[c..b] == raw[c..g] + raw[g..q] + raw[q..b];
    TrimSurrounded(raw[c..g], raw[g..q], raw[q..b]);
  }

  // ---------------------------------------------------------------------
  // What a field holds, in terms of the text around its marker

  /** When the first marker is followed by `body`, with no `[` in it, and then
      by the end or a `[`, the field is `body` minus one leading `:`, trimmed.
      The `[` that ends it need not open a tag. */
  lemma ExtractOfLayout(pre: string, tag: string, body: string, rest: string)
    requires IndexOf(pre + Bracketed(tag), Bracketed(tag)) == Some(|pre|)
    requires '[' !in body
    requires rest == [] || rest[0] == '['
    ensures Extract(pre + Bracketed(tag) + body + rest, tag)
            == Trim(if body != [] && body[0] == ':' then body[1..] else body)
  {
    var m := Bracketed(tag);
    assert pre + m + body + rest == (pre + m) + (body + rest);
    IndexOfExtend(pre + m, body + rest, m);
    CaptureOfLayout(pre + m, tag, body, rest);
  }

  /** The capture after a marker ending at `|h|`, followed by `body` and then
      by the end or a `[`. */
  lemma CaptureOfLayout(h: string, tag: string, body: string, rest: string)
    requires |Bracketed(tag)| <= |h|
    requires '[' !in body
    requires rest == [] || rest[0] == '['
    ensures Capture(h + body + rest, |h| - |Bracketed(tag)|, tag)
            == (if body != [] && body[0] == ':' then body[1..] else body)
  {
    var raw := h + body + rest;
    assert raw == h + (body + rest);
    var v := ValueStart(raw, |h| - |Bracketed(tag)|, tag);
    BracketAfterBody(h, body, rest, v);
    var d := v - |h|;
    SliceRight(h, body + rest, d, |body|);
    assert (body + rest)[d..|body|] == body[d..];
  }

  /** From inside a bracket-free `body`, the first bracket is where `rest` begins. */
  lemma BracketAfterBody(h: string, body: string, rest: string, v: nat)
    requires '[' !in body && (rest == [] || rest[0] == '[')
    requires |h| <= v <= |h| + |body|
    ensures FindChar(h + body + rest, '[', v) == |h| + |body|
  {
    var raw := h + body + rest;
    var e := |h| + |body|;
    forall k | v <= k < e ensures raw[k] != '[' {
      assert raw[k] == body[k - |h|];
    }
    assert e < |raw| ==> raw[e] == rest[0];
  }

  /** The field of a tag whose marker is absent is the sentinel. */
  lemma ExtractAbsent(raw: string, tag: string)
    requires !Occurs(raw, Bracketed(tag))
    ensures Extract(raw, tag) == Sentinel
  {
  }

  /** A present tag's value is trimmed and holds no `[`; it may be empty. */
  lemma ExtractPresentShape(raw: string, tag: string)
    requires Occurs(raw, Bracketed(tag))
    ensures '[' !in Extract(raw, tag) && IsTrimmed(Extract(raw, tag))
  {
  }

  /** A marker followed directly by another bracket gives the empty value. */
  lemma EmptyValueBeforeBracket(pre: string, tag: string, rest: string)
    requires IndexOf(pre + Bracketed(tag), Bracketed(tag)) == Some(|pre|)
    requires rest == [] || rest[0] == '['
    ensures Extract(pre + Bracketed(tag) + ":" + rest, tag) == ""
  {
    ExtractOfLayout(pre, tag, ":", rest);
  }

  // ---------------------------------------------------------------------
  // A reply written in the instructed layout, tags in any order

  /** One `[TAG]: value` line of a reply. */
  datatype Entry = Entry(tag: string, value: string)

  predicate WellFormed(entries: seq<Entry>) {
    forall k :: 0 <= k < |entries| ==> IsTagName(entries[k].tag) && '[' !in entries[k].value
  }

  function EntryText(e: Entry): string {
    Bracketed(e.tag) + ": " + e.value + "\n"
  }

  /** The reply holding the entries in the given order. */
  function ReportText(entries: seq<Entry>): string
    decreases |entries|
  {
    if entries == [] then [] else EntryText(entries[0]) + ReportText(entries[1..])
  }

  /** The value of the first entry with the tag, if any. */
  function FirstValue(entries: seq<Entry>, tag: string): Option<string>
    decreases |entries|
  {
    if entries == [] then None
    else if entries[0].tag == tag then Some(entries[0].value)
    else FirstValue(entries[1..], tag)
  }

  /** With distinct tags, each entry's tag finds that entry's own value. */
  lemma {:induction false} FirstValueOfDistinct(entries: seq<Entry>, k: nat)
    requires k < |entries|
    requires forall i, j :: 0 <= i < j < |entries| ==> entries[i].tag != entries[j].tag
    ensures FirstValue(entries, entries[k].tag) == Some(entries[k].value)
    decreases k
  {
    if k > 0 {
      var rest := entries[1..];
      assert rest[k - 1] == entries[k];
      forall i, j | 0 <= i < j < |rest|
        ensures rest[i].tag != rest[j].tag
      {
        assert rest[i] == entries[i + 1] && rest[j] == entries[j + 1];
      }
      FirstValueOfDistinct(rest, k - 1);
    }
  }

  /** The marker of a different tag does not occur at the start of a marker. */
  lemma MarkerMismatch(t: string, tag: string, u: string)
    requires IsTagName(t) && IsTagName(tag) && t != tag
    ensures !OccursAt(Bracketed(t) + u, Bracketed(tag), 0)
  {
    var s := Bracketed(t) + u;
    var m := Bracketed(tag);
    if |m| <= |s| {
      // an index where the text and the marker differ
      var d: nat;
      if |t| < |tag| {
        d := |t| + 1;
        assert s[d] == ']';
        assert m[d] == tag[|t|] && tag[|t|] in tag;
      } else if |t| > |tag| {
        d := |tag| + 1;
        assert m[d] == ']';
        assert s[d] == t[|tag|] && t[|tag|] in t;
      } else {
        var j :| 0 <= j < |t| && t[j] != tag[j];
        d := j + 1;
        assert s[d] == t[j] && m[d] == tag[j];
      }
      assert s[..|m|][d] != m[d];
    }
  }

  /** The text of well-formed entries is empty or starts with a bracket. */
  lemma ReportTextStart(entries: seq<Entry>)
    ensures ReportText(entries) == [] || ReportText(entries)[0] == '['
  {
  }

  /** An entry's own line gives its trimmed value when the rest of the text is
      empty or starts with a bracket. */
  lemma ExtractOwnEntry(e: Entry, rest: string)
    requires '[' !in e.value
    requires rest == [] || rest[0] == '['
    ensures Extract(EntryText(e) + rest, e.tag) == Trim(e.value)
  {
    var body := ": " + e.value + "\n";
    MarkerAtStart(Bracketed(e.tag));
    EntryLayout(e, rest);
    ExtractOfLayout([], e.tag, body, rest);
    TrimPadded(e.value);
  }

  lemma EntryLayout(e: Entry, rest: string)
    ensures EntryText(e) + rest == [] + Bracketed(e.tag) + (": " + e.value + "\n") + rest
    ensures (": " + e.value + "\n")[1..] == " " + e.value + "\n"
  {
  }

  lemma MarkerAtStart(m: string)
    ensures IndexOf([] + m, m) == Some(0)
  {
    assert OccursAt([] + m, m, 0);
  }

  /** The space after the colon and the line break do not reach the value. */
  lemma TrimPadded(value: string)
    ensures Trim(" " + value + "\n") == Trim(value)
  {
    assert IsBlank(" ") && IsBlank("\n");
    TrimSurrounded(" ", value, "\n");
  }

  /** No marker of another tag starts inside an entry's line. */
  lemma NoMarkerInEntry(e: Entry, tag: string, rest: string)
    requires IsTagName(e.tag) && IsTagName(tag) && e.tag != tag && '[' !in e.value
    ensures forall k: nat :: k < |EntryText(e)| ==> !OccursAt(EntryText(e) + rest, Bracketed(tag), k)
  {
    var head := EntryText(e);
    var raw := head + rest;
    var m := Bracketed(tag);
    var body := ": " + e.value + "\n";
    assert head == Bracketed(e.tag) + body;
    forall k: nat | k < |head|
      ensures !OccursAt(raw, m, k)
    {
      if k == 0 {
        assert raw == Bracketed(e.tag) + (body + rest);
        MarkerMismatch(e.tag, tag, body + rest);
      } else if k + |m| <= |raw| {
        assert raw[k..k + |m|][0] == head[k];
        assert head[k] != '[' by {
          if k < |Bracketed(e.tag)| {
            assert head[k] == Bracketed(e.tag)[k];
            if k <= |e.tag| { assert head[k] == e.tag[k - 1]; }
          } else {
            assert head[k] == body[k - |Bracketed(e.tag)|];
            assert forall c :: c in body ==> c == ':' || c == ' ' || c == '\n' || c in e.value;
          }
        }
      }
    }
  }

  /** Whatever the order of the entries, each field is the trimmed value of
      the first entry carrying its tag, and the sentinel when none does. */
  lemma {:induction false} ExtractFromReport(entries: seq<Entry>, tag: string)
    requires WellFormed(entries) && IsTagName(tag)
    ensures Extract(ReportText(entries), tag)
            == (match FirstValue(entries, tag) case None => Sentinel case Some(v) => Trim(v))
    decreases |entries|
  {
    if entries == [] {
      assert !Occurs([], Bracketed(tag));
    } else {
      var e := entries[0];
      var rest := ReportText(entries[1..]);
      ReportTextStart(entries[1..]);
      if e.tag == tag {
        ExtractOwnEntry(e, rest);
      } else {
        WellFormedTail(entries);
        ExtractFromReport(entries[1..], tag);
        ExtractSkipsEntry(e, tag, rest);
      }
    }
  }

  lemma WellFormedTail(entries: seq<Entry>)
    requires WellFormed(entries) && entries != []
    ensures WellFormed(entries[1..])
  {
    forall k | 0 <= k < |entries| - 1 ensures IsTagName(entries[1..][k].tag) && '[' !in entries[1..][k].value {
      assert entries[1..][k] == entries[k + 1];
    }
  }

  /** The line of an entry with another tag changes no field. */
  lemma ExtractSkipsEntry(e: Entry, tag: string, rest: string)
    requires IsTagName(e.tag) && IsTagName(tag) && e.tag != tag && '[' !in e.value
    ensures Extract(EntryText(e) + rest, tag) == Extract(rest, tag)
  {
    NoMarkerInEntry(e, tag, rest);
    IndexOfPastHead(EntryText(e), rest, Bracketed(tag));
    ExtractPastHead(EntryText(e), rest, tag);
  }

  /** A head in front of the text does not change the capture at a marker. */
  lemma CapturePastHead(head: string, rest: string, j: nat, tag: string)
    requires j + |Bracketed(tag)| <= |rest|
    ensures Capture(head + rest, |head| + j, tag) == Capture(rest, j, tag)
  {
    var raw := head + rest;
    var p := j + |Bracketed(tag)|;
    assert p < |rest| ==> raw[|head| + p] == rest[p];
    var v := ValueStart(rest, j, tag);
    assert ValueStart(raw, |head| + j, tag) == |head| + v;
    FindCharPastHead(head, rest, '[', v);
    SliceRight(head, rest, v, FindChar(rest, '[', v));
  }

  /** When the first marker lies in the tail, a head in front of the text
      changes no field. */
  lemma ExtractPastHead(head: string, rest: string, tag: string)
    requires IndexOf(head + rest, Bracketed(tag)) == (if IndexOf(rest, Bracketed(tag)).Some? then Some(|head| + IndexOf(rest, Bracketed(tag)).value) else None)
    ensures Extract(head + rest, tag) == Extract(rest, tag)
  {
    var r := IndexOf(rest, Bracketed(tag));
    if r.Some? {
      var i := r.value;
      CapturePastHead(head, rest, i, tag);
      assert IndexOf(head + rest, Bracketed(tag)) == Some(|head| + i);
      assert |head| + i + |Bracketed(tag)| <= |head + rest|;
      assert Capture(head + rest, |head| + i, tag) == Capture(rest, i, tag);
      ExtractSameCapture(head + rest, rest, tag, |head| + i, i);
    } else {
      ExtractNone(head + rest, rest, tag);
    }
  }

  /** Two texts whose first markers capture the same text read the same field. */
  lemma ExtractSameCapture(raw: string, other: string, tag: string, i: nat, j: nat)
    requires IndexOf(raw, Bracketed(tag)) == Some(i) && IndexOf(other, Bracketed(tag)) == Some(j)
    requires i + |Bracketed(tag)| <= |raw| && j + |Bracketed(tag)| <= |other|
    requires Capture(raw, i, tag) == Capture(other, j, tag)
    ensures Extract(raw, tag) == Extract(other, tag)
  {
  }

  /** Two texts without the marker read the same field, the sentinel. */
  lemma ExtractNone(raw: string, other: string, tag: string)
    requires IndexOf(raw, Bracketed(tag)).None? && IndexOf(other, Bracketed(tag)).None?
    ensures Extract(raw, tag) == Extract(other, tag)
  {
  }

  /** An empty or missing reply (read as the empty text) fills every field
      with the sentinel. */
  lemma EmptyReplyAllSentinel()
    ensures ParseReport("") == ParsedReport(Sentinel, Sentinel, Sentinel, Sentinel, Sentinel)
  {
    var tags := ["VERDICT", "CONFIDENCE", "VISUAL_INTEGRITY", "PSYCHOLOGICAL_ANALYSIS", "TECHNICAL_FLAGS"];
    forall t | t in tags ensures !Occurs("", Bracketed(t)) {
      assert |Bracketed(t)| > 0;
    }
  }

  /** `parseReport(rawText || '')`: a missing reply is read as the empty text. */
  function ReportOf(rawText: Option<string>): ParsedReport {
    ParseReport(if rawText.Some? then rawText.value else [])
  }

  /** A missing reply fills every field with the sentinel. */
  lemma MissingReplyAllSentinel()
    ensures ReportOf(None) == ParsedReport(Sentinel, Sentinel, Sentinel, Sentinel, Sentinel)
  {
    EmptyReplyAllSentinel();
  }

  // ---------------------------------------------------------------------
  // The verdict badge

  datatype VerdictLabel = Compromised | Flagged | Verified

  /** `getVerdictStyles(verdict).label`: an upper-cased substring test for
      CRITICAL first, then SUSPICIOUS. */
  function VerdictStyle(verdict: string): VerdictLabel {
    var v := ToUpper(verdict);
    if Contains(v, "CRITICAL") then Compromised
    else if Contains(v, "SUSPICIOUS") then Flagged
    else Verified
  }

  /** The badge is decided by case-insensitive occurrences, CRITICAL before
      SUSPICIOUS, and VERIFIED when neither word occurs. */
  lemma VerdictClassification(verdict: string)
    ensures VerdictStyle(verdict) == Compromised <==> OccursIgnoringCase(verdict, "CRITICAL")
    ensures VerdictStyle(verdict) == Flagged
            <==> !OccursIgnoringCase(verdict, "CRITICAL") && OccursIgnoringCase(verdict, "SUSPICIOUS")
    ensures VerdictStyle(verdict) == Verified
            <==> !OccursIgnoringCase(verdict, "CRITICAL") && !OccursIgnoringCase(verdict, "SUSPICIOUS")
  {
    assert ToUpper("CRITICAL") == "CRITICAL";
    assert ToUpper("SUSPICIOUS") == "SUSPICIOUS";
    UpperSearchIgnoresCase(verdict, "CRITICAL");
    UpperSearchIgnoresCase(verdict, "SUSPICIOUS");
  }

  /** A report whose verdict tag is missing is shown as VERIFIED. */
  lemma SentinelIsVerified()
    ensures VerdictStyle(Sentinel) == Verified
  {
    var v := ToUpper(Sentinel);
    assert v == "DATA UNAVAILABLE";
    assert 'C' !in v && 'S' !in v;
    OccursHasFirstChar(v, "CRITICAL");
    OccursHasFirstChar(v, "SUSPICIOUS");
  }
}
