/** Redaction of secrets in captured output (scripts/release/guard.py, redact): the sweep over
    merged match spans. Bytes are characters; the spans arrive sorted, as `heapq.merge` yields them. */
module Redaction {

  const MARKER := "[REDACTED]"

  datatype Span = Span(left: nat, right: nat)

  predicate Within(spans: seq<Span>, n: nat) {
    forall s | s in spans :: s.left <= s.right <= n
  }

  predicate Merged(spans: seq<Span>) {
    forall i, j | 0 <= i < j < |spans| :: spans[i].left <= spans[j].left
  }

  ghost predicate Covered(spans: seq<Span>, i: int) {
    exists s :: s in spans && s.left <= i < s.right
  }

  /** A covered byte that starts a maximal run of covered bytes. */
  ghost predicate StartsRun(spans: seq<Span>, i: int) {
    Covered(spans, i) && (i == 0 || !Covered(spans, i - 1))
  }

  /** What byte i contributes: itself, one marker for its whole run, or nothing. */
  ghost function Contribution(data: string, spans: seq<Span>, i: nat): string
    requires i < |data|
  {
    if !Covered(spans, i) then [data[i]] else if StartsRun(spans, i) then MARKER else ""
  }

  /** The first n bytes redacted, byte by byte. */
  ghost function Redacted(data: string, spans: seq<Span>, n: nat): string
    requires n <= |data|
  {
    if n == 0 then "" else Redacted(data, spans, n - 1) + Contribution(data, spans, n - 1)
  }

  lemma {:induction false} RunGivesOneMarker(data: string, spans: seq<Span>, start: nat, end: nat)
    requires start <= end <= |data| && (start == 0 || !Covered(spans, start - 1))
    requires forall i | start <= i < end :: Covered(spans, i)
    ensures Redacted(data, spans, end) == Redacted(data, spans, start) + if end > start then MARKER else ""
  {
    if end > start {
      RunGivesOneMarker(data, spans, start, end - 1);
    }
  }

  lemma {:induction false} GapIsCopied(data: string, spans: seq<Span>, end: nat, left: nat)
    requires end <= left <= |data| && forall i | end <= i < left :: !Covered(spans, i)
    ensures Redacted(data, spans, left) == Redacted(data, spans, end) + data[end..left]
  {
    if end < left {
      GapIsCopied(data, spans, end, left - 1);
      assert data[end..left] == data[end..left - 1] + [data[left - 1]];
    }
  }

  /** After the first k spans: [start, end) is the pending run, nothing before it is still open. */
  ghost predicate Pending(spans: seq<Span>, k: nat, start: nat, end: nat) {
    && start <= end
    && (start == 0 || !Covered(spans, start - 1))
    && (forall i | start <= i < end :: Covered(spans, i))
    && (forall j | 0 <= j < k && j < |spans| :: spans[j].right <= end)
    && (forall j | k <= j < |spans| :: start <= spans[j].left)
  }

  lemma PendingGrows(spans: seq<Span>, k: nat, start: nat, end: nat)
    requires Merged(spans) && k < |spans| && Pending(spans, k, start, end) && spans[k].left <= end
    ensures Pending(spans, k + 1, start, if spans[k].right > end then spans[k].right else end)
  {
    assert spans[k] in spans;
  }

  lemma PendingRestarts(spans: seq<Span>, k: nat, start: nat, end: nat)
    requires Merged(spans) && k < |spans| && Pending(spans, k, start, end) && spans[k].left > end
    requires spans[k].left <= spans[k].right
    ensures Pending(spans, k + 1, spans[k].left, spans[k].right)
  {
    assert spans[k] in spans;
    NothingBetween(spans, k, end);
  }

  /** What is written when the next span starts after the pending run, or when no span is left. */
  lemma Flushed(data: string, spans: seq<Span>, k: nat, start: nat, end: nat, next: nat)
    requires Merged(spans) && Pending(spans, k, start, end) && k <= |spans| && end <= next <= |data|
    requires if k < |spans| then next == spans[k].left else next == |data|
    ensures Redacted(data, spans, next) ==
            (Redacted(data, spans, start) + if end > start then MARKER else "") + data[end..next]
  {
    RunGivesOneMarker(data, spans, start, end);
    if k < |spans| {
      NothingBetween(spans, k, end);
    } else {
      NothingAfter(spans, end);
    }
    GapIsCopied(data, spans, end, next);
  }

  function Flush(data: string, output: string, start: nat, end: nat, next: nat): string
    requires end <= next <= |data|
  {
    (output + if end > start then MARKER else "") + data[end..next]
  }

  /** The sweep from span k on. */
  function Sweep(data: string, spans: seq<Span>, k: nat, output: string, start: nat, end: nat): string
    requires Within(spans, |data|) && k <= |spans| && end <= |data|
    decreases |spans| - k
  {
    if k == |spans| then Flush(data, output, start, end, |data|)
    else
      var span := spans[k];
      assert span in spans;
      if span.left > end then
        Sweep(data, spans, k + 1, Flush(data, output, start, end, span.left), span.left, span.right)
      else Sweep(data, spans, k + 1, output, start, if span.right > end then span.right else end)
  }

  lemma {:induction false} SweepRedacts(data: string, spans: seq<Span>, k: nat, start: nat, end: nat)
    requires Within(spans, |data|) && Merged(spans) && k <= |spans| && end <= |data| && Pending(spans, k, start, end)
    ensures Sweep(data, spans, k, Redacted(data, spans, start), start, end) == Redacted(data, spans, |data|)
    decreases |spans| - k
  {
    if k == |spans| {
      Flushed(data, spans, k, start, end, |data|);
    } else {
      var span := spans[k];
      assert span in spans;
      if span.left > end {
        Flushed(data, spans, k, start, end, span.left);
        PendingRestarts(spans, k, start, end);
        SweepRedacts(data, spans, k + 1, span.left, span.right);
      } else {
        PendingGrows(spans, k, start, end);
        SweepRedacts(data, spans, k + 1, start, if span.right > end then span.right else end);
      }
    }
  }

  /** The sweep, for any sorted spans, overlapping, touching or empty. */
  method Redact(data: string, spans: seq<Span>) returns (output: string)
    requires Within(spans, |data|) && Merged(spans)
    ensures output == Redacted(data, spans, |data|)
  {
    output := "";
    var start: nat, end: nat := 0, 0;
    SweepRedacts(data, spans, 0, 0, 0);
    for k := 0 to |spans|
      invariant start <= end <= |data|
      invariant Sweep(data, spans, k, output, start, end) == Redacted(data, spans, |data|)
    {
      var left, right := spans[k].left, spans[k].right;
      assert left <= right <= |data| by { assert spans[k] in spans; }
      if left > end {
        if end > start {
          output := output + MARKER;
        } else {
          assert output + "" == output;
        }
        output := output + data[end..left];
        start := left;
      }
      end := if right > end then right else end;
    }
    if end > start {
      output := output + MARKER;
    } else {
      assert output + "" == output;
    }
    output := output + data[end..];
  }

  lemma NothingBetween(spans: seq<Span>, k: nat, end: nat)
    requires Merged(spans) && k < |spans| && forall j | 0 <= j < k :: spans[j].right <= end
    ensures forall i | end <= i < spans[k].left :: !Covered(spans, i)
  {
    forall i | end <= i < spans[k].left ensures !Covered(spans, i) {
      forall s | s in spans ensures !(s.left <= i < s.right) {
        var j :| 0 <= j < |spans| && spans[j] == s;
      }
    }
  }

  lemma NothingAfter(spans: seq<Span>, end: nat)
    requires forall j | 0 <= j < |spans| :: spans[j].right <= end
    ensures forall i | end <= i :: !Covered(spans, i)
  {
    forall i | end <= i ensures !Covered(spans, i) {
      forall s | s in spans ensures !(s.left <= i < s.right) {
        var j :| 0 <= j < |spans| && spans[j] == s;
      }
    }
  }

  /** Nothing of a covered byte shows: data that differ only there redact alike, and so do
      span lists that cover the same bytes. */
  lemma {:induction false} OutputRevealsOnlyUncoveredBytes(d: string, e: string, s: seq<Span>, t: seq<Span>, n: nat)
    requires n <= |d| && n <= |e|
    requires forall i | 0 <= i < n :: Covered(s, i) == Covered(t, i)
    requires forall i | 0 <= i < n && !Covered(s, i) :: d[i] == e[i]
    ensures Redacted(d, s, n) == Redacted(e, t, n)
  {
    if n > 0 {
      OutputRevealsOnlyUncoveredBytes(d, e, s, t, n - 1);
    }
  }

  ghost function UncoveredCount(spans: seq<Span>, n: nat): nat {
    if n == 0 then 0 else UncoveredCount(spans, n - 1) + if Covered(spans, n - 1) then 0 else 1
  }

  ghost function RunCount(spans: seq<Span>, n: nat): nat {
    if n == 0 then 0 else RunCount(spans, n - 1) + if StartsRun(spans, n - 1) then 1 else 0
  }

  /** One byte for each uncovered byte and one marker for each maximal run. */
  lemma {:induction false} OutputLength(data: string, spans: seq<Span>, n: nat)
    requires n <= |data|
    ensures |Redacted(data, spans, n)| == UncoveredCount(spans, n) + |MARKER| * RunCount(spans, n)
  {
    if n > 0 {
      OutputLength(data, spans, n - 1);
    }
  }

  /** A text that is covered from beginning to end becomes the marker alone. */
  lemma CoveredTextBecomesTheMarker(data: string, spans: seq<Span>)
    requires data != "" && forall i | 0 <= i < |data| :: Covered(spans, i)
    ensures Redacted(data, spans, |data|) == "[REDACTED]"
  {
    RunGivesOneMarker(data, spans, 0, |data|);
    assert Redacted(data, spans, 0) == "";
  }
}
