/**
 The reader of the shell's stderr: it collects whatever each read brings, and when the marker
 has come takes it out again, with its newline if that came in the same read, and reports that
 the command's stderr is complete.
 */
module ShellStderr {
  import opened Characters
  import opened Options
  import opened ShellText

  predicate OccursAt(text: string, marker: string, i: nat) {
    i + |marker| <= |text| && text[i..i + |marker|] == marker
  }

  /** The first occurrence at or behind position i. */
  function Find(text: string, marker: string, i: nat): (at: Option<nat>)
    requires i <= |text| + 1
    ensures at.Some? ==> i <= at.value && OccursAt(text, marker, at.value)
    ensures at.Some? ==> forall k :: i <= k < at.value ==> !OccursAt(text, marker, k)
    ensures at.None? ==> forall k :: i <= k ==> !OccursAt(text, marker, k)
    decreases |text| + 1 - i
  {
    if i + |marker| > |text| then None
    else if OccursAt(text, marker, i) then Some(i)
    else Find(text, marker, i + 1)
  }

  function IndexOf(text: string, marker: string): Option<nat> {
    Find(text, marker, 0)
  }

  /** `marker` is "" while none is awaited; `closes` counts how often the done channel was closed. */
  datatype Collector = Collector(buffer: string, marker: string, closes: nat)

  /** Where the kept text goes on behind a marker that ends at `end`. */
  function Behind(text: string, end: nat): nat {
    if end < |text| && text[end] == NEWLINE then end + 1 else end
  }

  function Check(c: Collector): Collector {
    if c.marker == "" then c
    else
      match IndexOf(c.buffer, c.marker)
      case None => c
      case Some(i) =>
        var end := i + |c.marker|;
        Collector(c.buffer[..i] + c.buffer[Behind(c.buffer, end)..], "", c.closes + 1)
  }

  function Receive(c: Collector, chunk: string): Collector {
    if chunk == "" then c else Check(c.(buffer := c.buffer + chunk))
  }

  function ReceiveAll(c: Collector, chunks: seq<string>): Collector {
    if chunks == [] then c else Receive(ReceiveAll(c, chunks[..|chunks| - 1]), chunks[|chunks| - 1])
  }

  function Text(chunks: seq<string>): string {
    if chunks == [] then "" else Text(chunks[..|chunks| - 1]) + chunks[|chunks| - 1]
  }

  // ---- Chunk independence -------------------------------------------------------------

  /** How much text has come when the read that reaches position `end` is over. */
  function ReachedAt(chunks: seq<string>, end: nat): (reached: nat)
    requires end <= |Text(chunks)|
    ensures end <= reached <= |Text(chunks)|
  {
    if chunks == [] then 0
    else if end <= |Text(chunks[..|chunks| - 1])| then ReachedAt(chunks[..|chunks| - 1], end)
    else |Text(chunks)|
  }

  /** Where the kept text goes on behind a marker that ends at `end`: its newline is dropped only
      when the read that completed the marker brought it too. */
  function KeptFrom(chunks: seq<string>, end: nat): (from: nat)
    requires end <= |Text(chunks)|
    ensures end <= from <= |Text(chunks)|
  {
    if end < ReachedAt(chunks, end) && Text(chunks)[end] == NEWLINE then end + 1 else end
  }

  /** A prefix of the text has the marker just when it reaches to the end of the first one. */
  lemma IndexInPrefix(text: string, more: string, marker: string)
    ensures IndexOf(text + more, marker).None? ==> IndexOf(text, marker).None?
    ensures IndexOf(text + more, marker).Some? ==>
              var i := IndexOf(text + more, marker).value;
              IndexOf(text, marker) == if i + |marker| <= |text| then Some(i) else None
  {
    forall k: nat
      ensures OccursAt(text, marker, k) ==> OccursAt(text + more, marker, k)
      ensures OccursAt(text + more, marker, k) && k + |marker| <= |text| ==> OccursAt(text, marker, k)
    {
      if k + |marker| <= |text| {
        assert (text + more)[k..k + |marker|] == text[k..k + |marker|];
      }
    }
  }

  /** What has been collected after the reads depends only on the text, and on where the read that
      completed the first marker ended. */
  function Collected(marker: string, closes: nat, chunks: seq<string>): Collector {
    var text := Text(chunks);
    match IndexOf(text, marker)
    case None => Collector(text, marker, closes)
    case Some(i) => Collector(KeptText(chunks, i, marker), "", closes + 1)
  }

  /** Behind the marker, everything is kept. */
  lemma AfterTheMarker(marker: string, closes: nat, front: seq<string>, last: string)
    requires IndexOf(Text(front), marker).Some? && IndexOf(Text(front) + last, marker) == IndexOf(Text(front), marker)
    ensures Collected(marker, closes, front + [last]) ==
            Collected(marker, closes, front).(buffer := Collected(marker, closes, front).buffer + last)
  {
    TextAppends(front, last);
    KeptTextAppends(front, last, IndexOf(Text(front), marker).value, marker);
  }

  /** What is kept of the text when the marker is at `i`. */
  function KeptText(chunks: seq<string>, i: nat, marker: string): string
    requires i + |marker| <= |Text(chunks)|
  {
    Text(chunks)[..i] + Text(chunks)[KeptFrom(chunks, i + |marker|)..]
  }

  lemma KeptTextAppends(front: seq<string>, last: string, i: nat, marker: string)
    requires i + |marker| <= |Text(front)|
    ensures i + |marker| <= |Text(front + [last])|
    ensures KeptText(front + [last], i, marker) == KeptText(front, i, marker) + last
  {
    TextAppends(front, last);
    KeptStays(front, last, i + |marker|);
    KeepBehind(Text(front), last, i, KeptFrom(front, i + |marker|));
  }

  lemma TextAppends(front: seq<string>, last: string)
    ensures Text(front + [last]) == Text(front) + last
  {
    assert (front + [last])[..|front|] == front;
  }

  lemma KeptStays(front: seq<string>, last: string, end: nat)
    requires end <= |Text(front)|
    ensures end <= |Text(front + [last])|
    ensures KeptFrom(front + [last], end) == KeptFrom(front, end)
  {
    TextAppends(front, last);
    assert (front + [last])[..|front|] == front;
  }

  lemma KeepBehind(before: string, last: string, i: nat, from: nat)
    requires i <= from <= |before|
    ensures before[..i] + before[from..] + last == (before + last)[..i] + (before + last)[from..]
  {
    assert (before + last)[..i] == before[..i];
    assert (before + last)[from..] == before[from..] + last;
  }

  /** The read that completes the marker. */
  lemma AtTheMarker(marker: string, closes: nat, front: seq<string>, last: string)
    requires marker != ""
    requires IndexOf(Text(front), marker).None? && IndexOf(Text(front) + last, marker).Some?
    requires IndexOf(Text(front) + last, marker).value + |marker| > |Text(front)|
    ensures Collected(marker, closes, front + [last]) == Check(Collector(Text(front) + last, marker, closes))
  {
    var chunks := front + [last];
    assert chunks[..|chunks| - 1] == front;
    var end := IndexOf(Text(chunks), marker).value + |marker|;
    assert KeptFrom(chunks, end) == Behind(Text(chunks), end);
  }

  lemma {:induction false} ReadsAreCollected(marker: string, closes: nat, chunks: seq<string>)
    requires marker != ""
    ensures ReceiveAll(Collector("", marker, closes), chunks) == Collected(marker, closes, chunks)
  {
    if chunks != [] {
      var front, last := chunks[..|chunks| - 1], chunks[|chunks| - 1];
      assert chunks == front + [last];
      ReadsAreCollected(marker, closes, front);
      IndexInPrefix(Text(front), last, marker);
      if IndexOf(Text(front), marker).Some? {
        AfterTheMarker(marker, closes, front, last);
      } else if IndexOf(Text(chunks), marker).Some? {
        AtTheMarker(marker, closes, front, last);
      }
    } else {
      assert IndexOf("", marker).None?;
    }
  }

  /**
   The done channel is closed once, in the read that brings the last character of the first
   marker, however the text is cut.
   */
  lemma DoneWithTheMarker(marker: string, closes: nat, chunks: seq<string>, k: nat)
    requires marker != "" && k <= |chunks| && IndexOf(Text(chunks), marker).Some?
    ensures var done := ReceiveAll(Collector("", marker, closes), chunks[..k]).closes;
            var end := IndexOf(Text(chunks), marker).value + |marker|;
            done == if end <= |Text(chunks[..k])| then closes + 1 else closes
  {
    ReadsAreCollected(marker, closes, chunks[..k]);
    var rest := TextSplits(chunks, k);
    IndexInPrefix(Text(chunks[..k]), rest, marker);
  }

  lemma {:induction false} TextSplits(chunks: seq<string>, k: nat) returns (rest: string)
    requires k <= |chunks|
    ensures Text(chunks) == Text(chunks[..k]) + rest
    decreases |chunks|
  {
    if k == |chunks| {
      rest := "";
      assert chunks[..k] == chunks;
    } else {
      var front := chunks[..|chunks| - 1];
      var middle := TextSplits(front, k);
      assert front[..k] == chunks[..k];
      rest := middle + chunks[|chunks| - 1];
    }
  }

  lemma {:induction false} ReachedExactly(chunks: seq<string>, end: nat)
    requires 0 < end <= |Text(chunks)|
    ensures ReachedAt(chunks, end) == end <==> exists k: nat :: k <= |chunks| && |Text(chunks[..k])| == end
  {
    var n := |chunks|;
    var front := chunks[..n - 1];
    assert chunks[..n] == chunks;
    if end <= |Text(front)| {
      ReachedExactly(front, end);
      assert forall k: nat :: k <= n - 1 ==> front[..k] == chunks[..k];
      if k: nat :| k <= n && |Text(chunks[..k])| == end {
        if k == n {
          assert |Text(front[..n - 1])| == end by {
            assert front[..n - 1] == front;
          }
        } else {
          assert |Text(front[..k])| == end;
        }
      }
    } else {
      forall k: nat | k <= n && |Text(chunks[..k])| == end
        ensures k == n
      {
        if k < n {
          assert front[..k] == chunks[..k];
          var rest := TextSplits(front, k);
        }
      }
    }
  }

  lemma CutAtMarker(before: string, marker: string, text: string, from: nat)
    requires text == before + marker + [NEWLINE]
    requires |before| + |marker| <= from <= |text|
    ensures |text| == |before| + |marker| + 1 && text[|text| - 1] == NEWLINE
    ensures text[..|before|] + text[from..] == before + if from < |text| then [NEWLINE] else ""
  {
    assert text[..|before|] == before;
    if from < |text| {
      assert text[from..] == [NEWLINE];
    }
  }

  lemma UpToTheMarker(before: string, marker: string, closes: nat, chunks: seq<string>)
    requires marker != "" && Text(chunks) == before + marker + [NEWLINE]
    requires IndexOf(Text(chunks), marker) == Some(|before|)
    ensures Collected(marker, closes, chunks) ==
            Collector(before + if ReachedAt(chunks, |before| + |marker|) == |before| + |marker| then [NEWLINE] else "",
                      "", closes + 1)
  {
    CutAtMarker(before, marker, Text(chunks), KeptFrom(chunks, |before| + |marker|));
  }

  /** The marker comes first right behind what was written before it. */
  predicate Clean(before: string, marker: string) {
    IndexOf(before + marker + [NEWLINE], marker) == Some(|before|)
  }

  /** What stays of the newline behind a marker that ends at `end`. */
  function KeptNewline(chunks: seq<string>, end: nat, left: string): string {
    if left == "" && end <= |Text(chunks)| && ReachedAt(chunks, end) == end then [NEWLINE] else ""
  }

  /**
   The stderr of one command: `before`, the marker, and its newline.  Once the marker has been read
   the buffer is what came before it, with the newline behind it just when a read ended
   between the two and another brought the newline.  Until then the marker is awaited.
   */
  lemma StderrOfCommand(before: string, marker: string, closes: nat, chunks: seq<string>, left: string)
    requires marker != "" && Clean(before, marker) && Text(chunks) + left == before + marker + [NEWLINE]
    ensures var c := ReceiveAll(Collector("", marker, closes), chunks);
            if |left| > 1 then c.marker == marker && c.closes == closes
            else
              && c.marker == "" && c.closes == closes + 1
              && c.buffer == before + KeptNewline(chunks, |before| + |marker|, left)
  {
    var text, end := before + marker + [NEWLINE], |before| + |marker|;
    ReadsAreCollected(marker, closes, chunks);
    IndexInPrefix(Text(chunks), left, marker);
    assert |Text(chunks)| + |left| == end + 1;
    if left == "" {
      assert Text(chunks) == text;
      UpToTheMarker(before, marker, closes, chunks);
    } else if |left| == 1 {
      JustTheMarker(before, marker, closes, chunks, left);
    }
  }

  lemma JustTheMarker(before: string, marker: string, closes: nat, chunks: seq<string>, left: string)
    requires marker != "" && |left| == 1 && Text(chunks) + left == before + marker + [NEWLINE]
    requires IndexOf(Text(chunks), marker) == Some(|before|)
    ensures Collected(marker, closes, chunks) == Collector(before, "", closes + 1)
  {
    var text := before + marker + [NEWLINE];
    assert Text(chunks) == text[..|text| - 1] == before + marker;
    assert KeptFrom(chunks, |before| + |marker|) == |Text(chunks)|;
    assert Text(chunks)[..|before|] == before;
  }

  // ---- What may stand before the marker -------------------------------------------------

  /** A marker as the runner makes it, from the nanoseconds of a clock. */
  function MarkerOf(digits: string): string {
    "__MRK_" + digits + "_END__"
  }

  predicate EndsWith(s: string, tail: string) {
    |tail| <= |s| && s[|s| - |tail|..] == tail
  }

  /** Only the marker's last one or two characters can be the beginning of a marker. */
  lemma MarkerOverlaps(digits: string, d: nat)
    requires (forall c <- digits :: IsDigit(c)) && 0 < d < |MarkerOf(digits)|
    ensures var m := MarkerOf(digits);
            m[d..] == m[..|m| - d] <==> d >= |m| - 2
  {
    var m := MarkerOf(digits);
    var n := |m|;
    assert n == |digits| + 12;
    assert m[0] == '_' && m[1] == '_' && m[2] == 'M' && m[n - 1] == '_' && m[n - 2] == '_';
    if d < n - 2 && m[d..] == m[..n - d] {
      assert m[d..][2] == 'M';
      assert m[d + 2] == 'M';
      OneM(digits, d + 2);
    } else if d == n - 1 {
      assert m[d..] == ['_'] == m[..1];
    } else if d == n - 2 {
      assert m[d..] == ['_', '_'] == m[..2];
    }
  }

  lemma OneM(digits: string, i: nat)
    requires (forall c <- digits :: IsDigit(c)) && i < |MarkerOf(digits)|
    ensures MarkerOf(digits)[i] == 'M' ==> i == 2
  {
    var m := MarkerOf(digits);
    if 6 <= i < 6 + |digits| {
      assert m[i] == digits[i - 6] && digits[i - 6] in digits;
    } else if i >= 6 + |digits| {
      assert m[i] == "_END__"[i - 6 - |digits|];
    } else {
      assert m[i] == "__MRK_"[i];
    }
  }

  lemma OccursInside(err: string, marker: string, i: nat)
    requires i + |marker| <= |err|
    ensures OccursAt(err + marker + [NEWLINE], marker, i) <==> OccursAt(err, marker, i)
  {
    assert (err + marker + [NEWLINE])[i..i + |marker|] == err[i..i + |marker|];
  }

  /** An occurrence that begins in `err` and ends in the marker: `err` ends in its beginning, and the rest overlaps. */
  lemma OccursAcross(err: string, marker: string, i: nat)
    requires i < |err| < i + |marker|
    ensures var d := |err| - i;
            OccursAt(err + marker + [NEWLINE], marker, i) <==>
              EndsWith(err, marker[..d]) && marker[d..] == marker[..|marker| - d]
  {
    var d := |err| - i;
    var text := err + marker + [NEWLINE];
    assert text[i..i + |marker|] == err[i..] + marker[..|marker| - d];
    assert marker == marker[..d] + marker[d..];
  }

  lemma OccursBefore(digits: string, err: string, i: nat)
    requires (forall c <- digits :: IsDigit(c)) && i < |err|
    ensures var m := MarkerOf(digits);
            OccursAt(err + m + [NEWLINE], m, i) <==>
              OccursAt(err, m, i) || (|m| - 2 <= |err| - i < |m| && EndsWith(err, m[..|err| - i]))
  {
    var m := MarkerOf(digits);
    if i + |m| <= |err| {
      OccursInside(err, m, i);
    } else {
      OccursAcross(err, m, i);
      MarkerOverlaps(digits, |err| - i);
    }
  }

  lemma CleanIfFirst(err: string, marker: string)
    requires forall i: nat :: i < |err| ==> !OccursAt(err + marker + [NEWLINE], marker, i)
    ensures Clean(err, marker)
  {
    assert (err + marker + [NEWLINE])[|err|..|err| + |marker|] == marker;
    assert OccursAt(err + marker + [NEWLINE], marker, |err|);
  }

  lemma UncleanAt(digits: string, err: string, i: nat)
    requires (forall c <- digits :: IsDigit(c)) && i < |err|
    requires var m := MarkerOf(digits);
             OccursAt(err, m, i) || (|m| - 2 <= |err| - i < |m| && EndsWith(err, m[..|err| - i]))
    ensures !Clean(err, MarkerOf(digits))
  {
    OccursBefore(digits, err, i);
  }

  /**
   When stderr leaves the runner's marker alone: it must not contain the marker, and must not end in
   the marker without its last one or two underscores.
   */
  lemma CleanIff(digits: string, err: string)
    requires forall c <- digits :: IsDigit(c)
    ensures var m := MarkerOf(digits);
            Clean(err, m) <==>
              IndexOf(err, m).None? && !EndsWith(err, m[..|m| - 1]) && !EndsWith(err, m[..|m| - 2])
  {
    var m := MarkerOf(digits);
    if IndexOf(err, m).Some? {
      UncleanAt(digits, err, IndexOf(err, m).value);
    } else if EndsWith(err, m[..|m| - 1]) {
      UncleanAt(digits, err, |err| - (|m| - 1));
    } else if EndsWith(err, m[..|m| - 2]) {
      UncleanAt(digits, err, |err| - (|m| - 2));
    } else {
      forall i: nat | i < |err|
        ensures !OccursAt(err + m + [NEWLINE], m, i)
      {
        OccursBefore(digits, err, i);
      }
      CleanIfFirst(err, m);
    }
  }
}
