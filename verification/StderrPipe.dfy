/** The stderr pipe: what bash has written and the collector has not read yet, and how reads take it. */
module StderrPipe {
  import opened Characters
  import opened Numbers
  import opened Options
  import opened ShellStderr

  datatype Pipe = Pipe(collector: Collector, coming: string)

  /** One read of at most `n` characters; without any there is nothing to read. */
  function ReadOne(p: Pipe, n: nat): Pipe {
    var k := Min(n, |p.coming|);
    Pipe(Receive(p.collector, p.coming[..k]), p.coming[k..])
  }

  /** Any cutting into reads is given by their sizes. */
  function Reads(p: Pipe, sizes: seq<nat>): Pipe {
    if sizes == [] then p else ReadOne(Reads(p, sizes[..|sizes| - 1]), sizes[|sizes| - 1])
  }

  /** What reads of these sizes leave of a text, and what they bring. */
  function Left(text: string, sizes: seq<nat>): string {
    if sizes == [] then text
    else
      var rest := Left(text, sizes[..|sizes| - 1]);
      rest[Min(sizes[|sizes| - 1], |rest|)..]
  }

  function Chunks(text: string, sizes: seq<nat>): seq<string> {
    if sizes == [] then []
    else
      var rest := Left(text, sizes[..|sizes| - 1]);
      Chunks(text, sizes[..|sizes| - 1]) + [rest[..Min(sizes[|sizes| - 1], |rest|)]]
  }

  lemma ReceiveOneMore(c: Collector, chunks: seq<string>, chunk: string)
    ensures ReceiveAll(c, chunks + [chunk]) == Receive(ReceiveAll(c, chunks), chunk)
  {
    assert (chunks + [chunk])[..|chunks|] == chunks;
  }

  lemma TextGoesOn(chunks: seq<string>, rest: string, k: nat)
    requires k <= |rest|
    ensures Text(chunks + [rest[..k]]) + rest[k..] == Text(chunks) + rest
  {
    TextAppends(chunks, rest[..k]);
    assert rest == rest[..k] + rest[k..];
  }

  lemma {:induction false} ReadsAreChunks(p: Pipe, sizes: seq<nat>)
    ensures Reads(p, sizes) == Pipe(ReceiveAll(p.collector, Chunks(p.coming, sizes)), Left(p.coming, sizes))
    ensures Text(Chunks(p.coming, sizes)) + Left(p.coming, sizes) == p.coming
  {
    if sizes == [] {
      assert Text([]) + p.coming == p.coming;
    } else {
      var front := sizes[..|sizes| - 1];
      ReadsAreChunks(p, front);
      var rest := Left(p.coming, front);
      var k := Min(sizes[|sizes| - 1], |rest|);
      ReceiveOneMore(p.collector, Chunks(p.coming, front), rest[..k]);
      TextGoesOn(Chunks(p.coming, front), rest, k);
    }
  }

  /** A read ended when this much of the text was still to come. */
  ghost predicate ReadEndsBefore(text: string, sizes: seq<nat>, n: nat) {
    exists k: nat :: k <= |sizes| && |Left(text, sizes[..k])| == n
  }

  lemma {:induction false} ChunksOfPrefix(text: string, sizes: seq<nat>, k: nat)
    requires k <= |sizes|
    ensures |Chunks(text, sizes)| == |sizes| && Chunks(text, sizes)[..k] == Chunks(text, sizes[..k])
  {
    if k == |sizes| {
      assert sizes[..k] == sizes;
      ChunksLength(text, sizes);
    } else {
      var front := sizes[..|sizes| - 1];
      ChunksOfPrefix(text, front, k);
      assert front[..k] == sizes[..k];
    }
  }

  lemma {:induction false} ChunksLength(text: string, sizes: seq<nat>)
    ensures |Chunks(text, sizes)| == |sizes|
  {
    if sizes != [] {
      ChunksLength(text, sizes[..|sizes| - 1]);
    }
  }

  lemma PrefixLength(text: string, sizes: seq<nat>, k: nat)
    requires k <= |sizes|
    ensures |Chunks(text, sizes)| == |sizes|
    ensures |Text(Chunks(text, sizes)[..k])| + |Left(text, sizes[..k])| == |text|
  {
    ChunksOfPrefix(text, sizes, k);
    ReadsAreChunks(Pipe(Collector("", "", 0), text), sizes[..k]);
  }

  lemma EndsBetween(text: string, sizes: seq<nat>, end: nat)
    requires 0 < end <= |text| && end <= |Text(Chunks(text, sizes))|
    ensures ReachedAt(Chunks(text, sizes), end) == end <==> ReadEndsBefore(text, sizes, |text| - end)
  {
    var chunks := Chunks(text, sizes);
    ChunksLength(text, sizes);
    ReachedExactly(chunks, end);
    forall k: nat | k <= |sizes|
      ensures |Text(chunks[..k])| == end <==> |Left(text, sizes[..k])| == |text| - end
    {
      PrefixLength(text, sizes, k);
    }
  }

  // ---- A late newline ---------------------------------------------------------------------

  /** All that can be left of the stderr of a call that is over. */
  predicate IsLate(late: string) {
    late == "" || late == [NEWLINE]
  }

  lemma {:induction false} PlainMarkerStays(p: Pipe, sizes: seq<nat>)
    requires NEWLINE !in p.collector.marker
    ensures NEWLINE !in Reads(p, sizes).collector.marker
  {
    if sizes != [] {
      PlainMarkerStays(p, sizes[..|sizes| - 1]);
    }
  }

  lemma NoMarkerInLate(text: string, marker: string)
    requires IsLate(text) && marker != "" && NEWLINE !in marker
    ensures IndexOf(text, marker).None?
  {
    NoneAtNewline("", marker);
    assert [NEWLINE] + "" == [NEWLINE];
  }

  /** While there is only a late newline to read, no marker is found. */
  lemma {:induction false} LateIsKept(p: Pipe, sizes: seq<nat>)
    requires NEWLINE !in p.collector.marker && IsLate(p.collector.buffer + p.coming)
    ensures var after := Reads(p, sizes);
            && after.collector.buffer + after.coming == p.collector.buffer + p.coming
            && after.collector.marker == p.collector.marker
  {
    if sizes != [] {
      LateIsKept(p, sizes[..|sizes| - 1]);
      ReadOfLate(Reads(p, sizes[..|sizes| - 1]), sizes[|sizes| - 1]);
    }
  }

  lemma ReadOfLate(p: Pipe, n: nat)
    requires NEWLINE !in p.collector.marker && IsLate(p.collector.buffer + p.coming)
    ensures var after := ReadOne(p, n);
            && after.collector.buffer + after.coming == p.collector.buffer + p.coming
            && after.collector.marker == p.collector.marker
  {
    var k := Min(n, |p.coming|);
    var buffer := p.collector.buffer + p.coming[..k];
    assert buffer + p.coming[k..] == p.collector.buffer + p.coming;
    assert IsLate(buffer);
    if p.collector.marker != "" {
      NoMarkerInLate(buffer, p.collector.marker);
    }
  }

  /** What is in the buffer already is like a first read. */
  lemma {:induction false} BufferIsFirstRead(buffer: string, marker: string, closes: nat, chunks: seq<string>)
    requires marker != "" && IndexOf(buffer, marker).None?
    ensures ReceiveAll(Collector(buffer, marker, closes), chunks)
         == ReceiveAll(Collector("", marker, closes), [buffer] + chunks)
  {
    if chunks == [] {
      assert [buffer] + chunks == [buffer] && [buffer][..0] == [];
      assert "" + buffer == buffer;
    } else {
      var front, last := chunks[..|chunks| - 1], chunks[|chunks| - 1];
      BufferIsFirstRead(buffer, marker, closes, front);
      assert [buffer] + chunks == ([buffer] + front) + [last];
      ReceiveOneMore(Collector("", marker, closes), [buffer] + front, last);
    }
  }

  lemma {:induction false} TextBehind(buffer: string, chunks: seq<string>)
    ensures Text([buffer] + chunks) == buffer + Text(chunks)
  {
    if chunks == [] {
      assert [buffer] + chunks == [buffer] && [buffer][..0] == [];
      assert "" + buffer == buffer == buffer + "";
    } else {
      var front, last := chunks[..|chunks| - 1], chunks[|chunks| - 1];
      TextBehind(buffer, front);
      assert [buffer] + chunks == ([buffer] + front) + [last];
      TextAppends([buffer] + front, last);
      assert (buffer + Text(front)) + last == buffer + (Text(front) + last);
    }
  }

  lemma {:induction false} ReachedBehind(buffer: string, chunks: seq<string>, end: nat)
    requires |buffer| < end <= |buffer| + |Text(chunks)|
    ensures end <= |Text([buffer] + chunks)|
    ensures ReachedAt([buffer] + chunks, end) == |buffer| + ReachedAt(chunks, end - |buffer|)
  {
    TextBehind(buffer, chunks);
    if chunks != [] {
      var front := chunks[..|chunks| - 1];
      TextBehind(buffer, front);
      assert ([buffer] + chunks)[..|chunks|] == [buffer] + front;
      if end <= |buffer| + |Text(front)| {
        ReachedBehind(buffer, front, end);
      }
    }
  }

  /** `p` is behind `q` by this text: read already, or still to come. */
  predicate Trails(p: Pipe, q: Pipe, late: string) {
    && p.collector.marker == q.collector.marker
    && p.coming == q.coming && p.collector.buffer == late + q.collector.buffer
  }

  predicate TrailsUnread(p: Pipe, q: Pipe, late: string) {
    && p.collector.marker == q.collector.marker
    && p.coming == late + q.coming && p.collector.buffer == q.collector.buffer == ""
  }

  lemma OccursBehindNewline(text: string, marker: string, i: nat)
    ensures OccursAt([NEWLINE] + text, marker, i + 1) <==> OccursAt(text, marker, i)
  {
    var longer := [NEWLINE] + text;
    if i + |marker| <= |text| {
      assert longer[i + 1..i + 1 + |marker|] == text[i..i + |marker|];
    }
  }

  lemma NoneAtNewline(text: string, marker: string)
    requires marker != "" && NEWLINE !in marker
    ensures !OccursAt([NEWLINE] + text, marker, 0)
  {
    var longer := [NEWLINE] + text;
    assert marker[0] in marker;
    assert |marker| <= |longer| ==> longer[0..|marker|][0] == NEWLINE;
  }

  lemma IndexBehindNewline(text: string, marker: string)
    requires marker != "" && NEWLINE !in marker
    ensures IndexOf([NEWLINE] + text, marker) ==
            match IndexOf(text, marker) case None => None case Some(i) => Some(i + 1)
  {
    NoneAtNewline(text, marker);
    var there := IndexOf([NEWLINE] + text, marker);
    if there.Some? {
      OccursBehindNewline(text, marker, there.value - 1);
    }
    if IndexOf(text, marker).Some? {
      OccursBehindNewline(text, marker, IndexOf(text, marker).value);
    }
  }

  lemma CheckBehindLate(c: Collector, d: Collector, late: string)
    requires IsLate(late) && NEWLINE !in c.marker
    requires c.marker == d.marker && c.buffer == late + d.buffer
    ensures Check(c).marker == Check(d).marker && Check(c).buffer == late + Check(d).buffer
  {
    if late == "" {
      assert c.buffer == d.buffer;
      CheckIgnoresCount(c, d);
    } else {
      CheckBehindNewline(d.buffer, c.marker, c.closes, d.closes);
    }
  }

  lemma CheckIgnoresCount(c: Collector, d: Collector)
    requires c.marker == d.marker && c.buffer == d.buffer
    ensures Check(c).marker == Check(d).marker && Check(c).buffer == "" + Check(d).buffer
  {
    assert "" + Check(d).buffer == Check(d).buffer;
  }

  lemma CheckBehindNewline(text: string, marker: string, m: nat, n: nat)
    requires NEWLINE !in marker
    ensures var here, there := Check(Collector([NEWLINE] + text, marker, m)), Check(Collector(text, marker, n));
            here.marker == there.marker && here.buffer == [NEWLINE] + there.buffer
  {
    if marker != "" {
      IndexBehindNewline(text, marker);
      if IndexOf(text, marker).Some? {
        CutBehindNewline(text, IndexOf(text, marker).value, IndexOf(text, marker).value + |marker|);
      }
    }
  }

  lemma BehindNewline(text: string, end: nat)
    requires end <= |text|
    ensures Behind([NEWLINE] + text, end + 1) == Behind(text, end) + 1
  {
  }

  lemma CutBehindNewline(text: string, i: nat, end: nat)
    requires i <= end <= |text|
    ensures var longer := [NEWLINE] + text;
            longer[..i + 1] + longer[Behind(longer, end + 1)..] == [NEWLINE] + (text[..i] + text[Behind(text, end)..])
  {
    var longer := [NEWLINE] + text;
    BehindNewline(text, end);
    assert longer[..i + 1] == [NEWLINE] + text[..i];
    assert longer[Behind(text, end) + 1..] == text[Behind(text, end)..];
  }

  lemma ReceiveTrails(c: Collector, d: Collector, late: string, chunk: string)
    requires IsLate(late) && NEWLINE !in c.marker && c.marker == d.marker && c.buffer == late + d.buffer
    ensures var here, there := Receive(c, chunk), Receive(d, chunk);
            && here.marker == there.marker && here.buffer == late + there.buffer
            && NEWLINE !in here.marker
  {
    assert (late + d.buffer) + chunk == late + (d.buffer + chunk);
    CheckBehindLate(c.(buffer := c.buffer + chunk), d.(buffer := d.buffer + chunk), late);
  }

  lemma ReadTrails(p: Pipe, q: Pipe, late: string, n: nat) returns (here: Pipe, there: Pipe)
    requires IsLate(late) && NEWLINE !in p.collector.marker && Trails(p, q, late)
    ensures here == ReadOne(p, n) && there == ReadOne(q, n)
    ensures Trails(here, there, late) && NEWLINE !in here.collector.marker
  {
    here, there := ReadOne(p, n), ReadOne(q, n);
    var chunk := p.coming[..Min(n, |p.coming|)];
    ReceiveTrails(p.collector, q.collector, late, chunk);
  }

  lemma {:induction false} ReadsTrail(p: Pipe, q: Pipe, late: string, sizes: seq<nat>)
    requires IsLate(late) && NEWLINE !in p.collector.marker && Trails(p, q, late)
    ensures Trails(Reads(p, sizes), Reads(q, sizes), late) && NEWLINE !in Reads(p, sizes).collector.marker
  {
    if sizes != [] {
      var front := sizes[..|sizes| - 1];
      ReadsTrail(p, q, late, front);
      var here, there := ReadTrails(Reads(p, front), Reads(q, front), late, sizes[|sizes| - 1]);
    }
  }

  predicate AllZero(sizes: seq<nat>) {
    forall n <- sizes :: n == 0
  }

  /** The sizes when the newline in front is not there to be read: the first read that brings anything is one
      shorter. */
  function WithoutFirst(sizes: seq<nat>): seq<nat> {
    if sizes == [] then []
    else
      var front, last := sizes[..|sizes| - 1], sizes[|sizes| - 1];
      WithoutFirst(front) + [SizeAs(AllZero(front), last)]
  }

  /** How the two stand to each other while nothing (`unread`), and once something, has been read. */
  predicate TrailsAs(p: Pipe, q: Pipe, unread: bool) {
    && NEWLINE !in p.collector.marker
    && if unread then p.collector.marker != "" && TrailsUnread(p, q, [NEWLINE]) else Trails(p, q, [NEWLINE])
  }

  /** What a read of `n` on the one side is on the other. */
  function SizeAs(unread: bool, n: nat): nat {
    if unread && n > 0 then n - 1 else n
  }

  lemma ReadTrailsAs(p: Pipe, q: Pipe, unread: bool, n: nat) returns (here: Pipe, there: Pipe)
    requires TrailsAs(p, q, unread)
    ensures here == ReadOne(p, n) && there == ReadOne(q, SizeAs(unread, n))
    ensures TrailsAs(here, there, unread && n == 0)
  {
    if !unread {
      here, there := ReadTrails(p, q, [NEWLINE], n);
    } else if n > 0 {
      here, there := FirstRead(p, q, n);
    } else {
      here := NothingRead(p, n);
      there := NothingRead(q, n);
    }
  }

  lemma {:induction false} ReadsTrailUnread(p: Pipe, q: Pipe, sizes: seq<nat>) returns (here: Pipe, there: Pipe)
    requires TrailsAs(p, q, true)
    ensures here == Reads(p, sizes) && there == Reads(q, WithoutFirst(sizes))
    ensures TrailsAs(here, there, AllZero(sizes))
  {
    if sizes == [] {
      here, there := p, q;
    } else {
      var front, last := sizes[..|sizes| - 1], sizes[|sizes| - 1];
      assert sizes == front + [last];
      AllZeroOfLast(front, last);
      var before, beside := ReadsTrailUnread(p, q, front);
      here, there := ReadTrailsAs(before, beside, AllZero(front), last);
      OneMoreSize(q, WithoutFirst(front), SizeAs(AllZero(front), last));
    }
  }

  lemma OneMoreSize(p: Pipe, sizes: seq<nat>, n: nat)
    ensures Reads(p, sizes + [n]) == ReadOne(Reads(p, sizes), n)
  {
    assert (sizes + [n])[..|sizes|] == sizes;
  }

  lemma AllZeroOfLast(front: seq<nat>, last: nat)
    ensures AllZero(front + [last]) <==> AllZero(front) && last == 0
  {
    assert last in front + [last] && forall n <- front :: n in front + [last];
  }

  lemma NothingRead(p: Pipe, n: nat) returns (here: Pipe)
    requires n == 0
    ensures here == p && here == ReadOne(p, n)
  {
    here := ReadOne(p, n);
    assert here.coming == p.coming;
  }

  lemma FirstRead(p: Pipe, q: Pipe, n: nat) returns (here: Pipe, there: Pipe)
    requires n > 0 && p.collector.marker != "" && NEWLINE !in p.collector.marker && TrailsUnread(p, q, [NEWLINE])
    ensures here == ReadOne(p, n) && there == ReadOne(q, n - 1)
    ensures Trails(here, there, [NEWLINE]) && NEWLINE !in here.collector.marker
  {
    var k := Min(n - 1, |q.coming|);
    var chunk, rest := q.coming[..k], q.coming[k..];
    assert p.coming == [NEWLINE] + q.coming;
    CutOneFurther(q.coming, k);
    here := ReadOf(p, n, k + 1, [NEWLINE] + chunk, rest);
    there := ReadOf(q, n - 1, k, chunk, rest);
    FirstReceived(p.collector, q.collector, chunk);
  }

  lemma ReadOf(p: Pipe, n: nat, k: nat, chunk: string, rest: string) returns (after: Pipe)
    requires k == Min(n, |p.coming|) && chunk == p.coming[..k] && rest == p.coming[k..]
    ensures after == ReadOne(p, n) && after == Pipe(Receive(p.collector, chunk), rest)
  {
    after := ReadOne(p, n);
  }

  lemma CutOneFurther(text: string, k: nat)
    requires k <= |text|
    ensures ([NEWLINE] + text)[..k + 1] == [NEWLINE] + text[..k]
    ensures ([NEWLINE] + text)[k + 1..] == text[k..]
  {
  }

  lemma FirstReceived(c: Collector, d: Collector, chunk: string)
    requires c.marker == d.marker != "" && NEWLINE !in c.marker && c.buffer == d.buffer == ""
    ensures var here, there := Receive(c, [NEWLINE] + chunk), Receive(d, chunk);
            && here.marker == there.marker && here.buffer == [NEWLINE] + there.buffer
            && NEWLINE !in here.marker
  {
    assert "" + ([NEWLINE] + chunk) == [NEWLINE] + chunk && "" + chunk == chunk;
    CheckBehindNewline(chunk, c.marker, c.closes, d.closes);
    assert IndexOf("", d.marker).None?;
  }
}
