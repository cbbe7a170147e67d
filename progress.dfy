/**
  The progress conduit between a backup worker and the front-end: the
  receiving end of the channel as an owned buffer of `(transferred, total)`
  samples, what one tick reads from it, and the status text it writes.
 */
module Progress {
  import opened Wrappers
  import opened Decimal

  /** One `(transferred, total)` byte-count sample, `(usize, usize)` in the source. */
  datatype Sample = Sample(transferred: nat, total: nat)

  /** Every sample has a positive total, so that its ratio is defined. */
  predicate WellFormed(samples: seq<Sample>) {
    forall i | 0 <= i < |samples| :: samples[i].total > 0
  }

  /** The receiving end of a progress channel: samples sent and not yet received. */
  class ProgressChannel {
    var pending: seq<Sample>

    ghost predicate Valid()
      reads this
    {
      WellFormed(pending)
    }

    /** `channel()`: a fresh channel holds nothing. */
    constructor ()
      ensures Valid() && pending == []
    {
      pending := [];
    }

    /** The worker's `send`: the sample is queued after those already pending. */
    method Send(s: Sample)
      requires Valid() && s.total > 0
      modifies this
      ensures Valid() && pending == old(pending) + [s]
    {
      pending := pending + [s];
    }

    /** `try_iter().last()`: receive everything pending, keep only the last sample. */
    method TryIterLast() returns (last: Option<Sample>)
      requires Valid()
      modifies this
      ensures Valid() && pending == []
      ensures last == Last(old(pending))
    {
      last := None;
      while pending != []
        invariant Valid()
        invariant pending != [] ==> Last(pending) == Last(old(pending))
        invariant pending == [] ==> last == Last(old(pending))
        decreases |pending|
      {
        last := Some(pending[0]);
        pending := pending[1..];
      }
    }
  }

  /** The most recent sample of a buffer, if any. */
  function Last(samples: seq<Sample>): Option<Sample> {
    if samples == [] then None else Some(samples[|samples| - 1])
  }

  /** The text shown when a tick finds the buffer empty. */
  const CompleteText := "Backup complete!"

  /** `format!("{transferred_bytes}/{total_bytes}")`. */
  function SampleText(s: Sample): string {
    NatToString(s.transferred) + "/" + NatToString(s.total)
  }

  /** Position of the first '/' in `s`, or `|s|` when there is none. */
  function SlashIndex(s: string): (i: nat)
    ensures i <= |s|
    ensures forall j | 0 <= j < i :: s[j] != '/'
    ensures i < |s| ==> s[i] == '/'
  {
    if s == [] || s[0] == '/' then 0 else 1 + SlashIndex(s[1..])
  }

  /** Reads a status text of the form "<digits>/<digits>" back into a sample. */
  function ParseSampleText(text: string): Option<Sample> {
    var i := SlashIndex(text);
    if 0 < i < |text| - 1 && AllDigits(text[..i]) && AllDigits(text[i + 1..]) then
      Some(Sample(ParseDigits(text[..i]), ParseDigits(text[i + 1..])))
    else
      None
  }

  /** The progress text names exactly the sample it was made from. */
  lemma SampleTextRoundTrip(s: Sample)
    ensures ParseSampleText(SampleText(s)) == Some(s)
  {
    var a, b := NatToString(s.transferred), NatToString(s.total);
    var text := SampleText(s);
    assert text[|a|] == '/';
    var i := SlashIndex(text);
    assert forall j | 0 <= j < |a| :: text[j] == a[j];
    assert i == |a|;
    assert text[..i] == a;
    assert text[i + 1..] == b;
    ParseNatToString(s.transferred);
    ParseNatToString(s.total);
  }

  /** The ratio `transferred / total * 100` the progress bar shows. */
  function Ratio(s: Sample): real
    requires s.total > 0
  {
    (s.transferred as real) / (s.total as real) * 100.0
  }

  /** What one tick leaves in the progress and status-text fields. */
  datatype Reading = Reading(progress: real, statusText: string)

  /**
    The drain of one tick, given the samples pending and the current status
    text: an empty buffer reads as a complete `(100, 100)` sample; the text
    becomes "t/total" only while `t < total`.
   */
  function Drain(pending: seq<Sample>, statusText: string): Reading
    requires WellFormed(pending)
  {
    var (text, s) := match Last(pending)
      case Some(x) => (statusText, x)
      case None => (CompleteText, Sample(100, 100));
    Reading(Ratio(s), if s.transferred < s.total then SampleText(s) else text)
  }

  /** An empty buffer is read as completion. */
  lemma DrainEmpty(statusText: string)
    ensures Drain([], statusText) == Reading(100.0, CompleteText)
  {
  }

  /** Only the most recent sample matters: everything before it is discarded. */
  lemma DrainLatestOnly(older: seq<Sample>, others: seq<Sample>, s: Sample, statusText: string)
    requires WellFormed(older) && WellFormed(others) && s.total > 0
    ensures WellFormed(older + [s]) && WellFormed(others + [s])
    ensures Drain(older + [s], statusText) == Drain(others + [s], statusText)
    ensures Drain(older + [s], statusText) == Drain([s], statusText)
  {
  }

  /**
    With the last sample no further than its total, the progress lies in
    [0, 100], and it is 100 exactly when the buffer was empty or the sample
    is full.
   */
  lemma DrainInRange(pending: seq<Sample>, statusText: string)
    requires WellFormed(pending)
    requires pending != [] ==> pending[|pending| - 1].transferred <= pending[|pending| - 1].total
    ensures 0.0 <= Drain(pending, statusText).progress <= 100.0
    ensures Drain(pending, statusText).progress == 100.0 <==>
      (pending == [] || pending[|pending| - 1].transferred == pending[|pending| - 1].total)
  {
    if pending != [] {
      var s := pending[|pending| - 1];
      var t, n := s.transferred as real, s.total as real;
      assert 0.0 <= t / n <= 1.0 by {
        assert t <= n && n > 0.0;
      }
      assert t / n == 1.0 <==> t == n;
    }
  }

  /**
    The status text after a tick with a last sample `(t, total)`: while
    `t < total` it reads back as that very sample, otherwise it is the text
    from before the tick.
   */
  lemma DrainStatusText(pending: seq<Sample>, statusText: string)
    requires WellFormed(pending) && pending != []
    ensures var s := pending[|pending| - 1];
      (s.transferred < s.total ==> ParseSampleText(Drain(pending, statusText).statusText) == Some(s)) &&
      (s.transferred >= s.total ==> Drain(pending, statusText).statusText == statusText)
  {
    SampleTextRoundTrip(pending[|pending| - 1]);
  }

  /** Two ticks over samples of one transfer show non-decreasing progress. */
  lemma DrainMonotone(first: seq<Sample>, second: seq<Sample>, text1: string, text2: string)
    requires WellFormed(first) && WellFormed(second) && first != [] && second != []
    requires first[|first| - 1].total == second[|second| - 1].total
    requires first[|first| - 1].transferred <= second[|second| - 1].transferred
    ensures Drain(first, text1).progress <= Drain(second, text2).progress
  {
    var n := first[|first| - 1].total as real;
    var a, b := first[|first| - 1].transferred as real, second[|second| - 1].transferred as real;
    assert (b - a) / n >= 0.0 by {
      assert b - a >= 0.0 && n > 0.0;
    }
    assert b / n == a / n + (b - a) / n;
  }

  /**
    A tick that finds the buffer empty reports completion even when the
    worker is still running: progress 25, then 100 with "Backup complete!",
    then 50 once the next sample arrives.
   */
  lemma ProgressCanFallBack()
    ensures Drain([Sample(50, 200)], "").progress == 25.0
    ensures Drain([], SampleText(Sample(50, 200))) == Reading(100.0, CompleteText)
    ensures Drain([Sample(100, 200)], CompleteText).progress == 50.0
  {
  }
}
