/** The test harness's reader: bytes arrive in chunks, carriage returns are
    dropped, and callers wait for a needle in what remains. */
module ReadAsserter {
  import opened Wrappers

  type Byte = b: int | 0 <= b < 256
  type Bytes = seq<Byte>

  const CARRIAGE_RETURN: Byte := 13

  // ----------------------------------------------------------------- searching

  /** An occurrence of the needle ends at `e`. */
  predicate EndsAt(s: Bytes, needle: Bytes, e: nat) {
    |needle| <= e <= |s| && s[e - |needle|..e] == needle
  }

  predicate FirstEnd(s: Bytes, needle: Bytes, e: nat) {
    EndsAt(s, needle, e) && forall d | 0 <= d < e :: !EndsAt(s, needle, d)
  }

  /** find_end_index_in_buffer(), from window `i` on. */
  function FindEnd(s: Bytes, needle: Bytes, i: nat): (r: Option<nat>)
    ensures r.Some? ==> i + |needle| <= r.value && EndsAt(s, needle, r.value)
    ensures forall d: nat | i + |needle| <= d && (r.None? || d < r.value) :: !EndsAt(s, needle, d)
    decreases |s| - i
  {
    if i + |needle| > |s| then None
    else if s[i..i + |needle|] == needle then Some(i + |needle|)
    else FindEnd(s, needle, i + 1)
  }

  /** A match within what has arrived is the first match of the whole stream. */
  lemma FirstEndOfPrefix(s: Bytes, more: Bytes, needle: Bytes, e: nat)
    requires FirstEnd(s, needle, e)
    ensures FirstEnd(s + more, needle, e)
  {
    forall d | 0 <= d <= e ensures EndsAt(s + more, needle, d) <==> EndsAt(s, needle, d) {
      if |needle| <= d { assert (s + more)[d - |needle|..d] == s[d - |needle|..d]; }
    }
  }

  // ----------------------------------------------------------------- filtering

  /** What is left of the input once carriage returns are dropped. */
  function Filtered(s: Bytes): Bytes {
    if s == [] then [] else (if s[0] == CARRIAGE_RETURN then [] else [s[0]]) + Filtered(s[1..])
  }

  lemma {:induction false} FilteredConcat(s: Bytes, t: Bytes)
    ensures Filtered(s + t) == Filtered(s) + Filtered(t)
  {
    if s == [] {
      assert s + t == t;
    } else {
      var first, u := (if s[0] == CARRIAGE_RETURN then [] else [s[0]]), s + t;
      assert u[0] == s[0] && u[1..] == s[1..] + t;
      assert Filtered(u) == first + Filtered(u[1..]) && Filtered(s) == first + Filtered(s[1..]);
      hide Filtered;
      FilteredConcat(s[1..], t);
      assert first + (Filtered(s[1..]) + Filtered(t)) == first + Filtered(s[1..]) + Filtered(t);
    }
  }

  function Flat(chunks: seq<Bytes>): Bytes {
    if chunks == [] then [] else chunks[0] + Flat(chunks[1..])
  }

  /** How the bytes are cut into chunks makes no difference to the stream. */
  lemma {:induction false} FlatFiltered(chunks: seq<Bytes>)
    ensures Filtered(Flat(chunks)) == Flat(seq(|chunks|, i requires 0 <= i < |chunks| => Filtered(chunks[i])))
  {
    var f := seq(|chunks|, i requires 0 <= i < |chunks| => Filtered(chunks[i]));
    if chunks != [] {
      FlatFiltered(chunks[1..]);
      FilteredConcat(chunks[0], Flat(chunks[1..]));
      assert f[1..] == seq(|chunks[1..]|, i requires 0 <= i < |chunks[1..]| => Filtered(chunks[1..][i]));
    }
  }

  // ---------------------------------------------------------------- the buffer

  class SearchableBuffer {
    var buffer: Bytes

    constructor (data: Bytes)
      ensures buffer == data
    {
      buffer := data;
    }

    method ShiftToFront(index: nat) returns (front: Bytes)
      requires index <= |buffer|
      modifies this
      ensures front + buffer == old(buffer) && |front| == index
    {
      front := buffer[index..];
      front, buffer := buffer[..index], front;
    }

    /** An empty needle makes windows() panic. */
    method FindAndRemove(needle: Bytes) returns (r: Option<Bytes>)
      requires needle != []
      modifies this
      ensures r.Some? ==> r.value + buffer == old(buffer) && FirstEnd(old(buffer), needle, |r.value|)
      ensures r.None? ==> buffer == old(buffer) && forall e: nat :: !EndsAt(buffer, needle, e)
    {
      var end := FindEnd(buffer, needle, 0);
      if end.None? { return None; }
      var front := ShiftToFront(end.value);
      r := Some(front);
    }

    method Append(data: Bytes)
      modifies this
      ensures buffer == old(buffer) + data
    {
      buffer := buffer + data;
    }

    method Drain() returns (all: Bytes)
      modifies this
      ensures all == old(buffer) && buffer == []
    {
      all, buffer := buffer, [];
    }
  }

  // ---------------------------------------------------------------- the reader

  /** What a session of calls gets out of a stream: for each needle the shortest
      remaining prefix that ends in it, or nothing. */
  function Answers(stream: Bytes, needles: seq<Bytes>): seq<Option<Bytes>> {
    if needles == [] then []
    else match FindEnd(stream, needles[0], 0)
      case None => [None] + Answers(stream, needles[1..])
      case Some(e) => [Some(stream[..e])] + Answers(stream[e..], needles[1..])
  }

  lemma FirstEndUnique(s: Bytes, needle: Bytes, e: nat)
    requires FirstEnd(s, needle, e)
    ensures FindEnd(s, needle, 0) == Some(e)
  {
    var r := FindEnd(s, needle, 0);
    assert EndsAt(s, needle, e);
    if r.Some? {
      assert EndsAt(s, needle, r.value);
      if r.value < e { assert false; }
      if e < r.value { assert false; }
    }
  }

  datatype Outcome = Found(front: Bytes) | Eof(buffered: Bytes) | Timeout(buffered: Bytes)

  /** The first `n` pieces have been taken off. */
  ghost predicate Taken(before: seq<Bytes>, after: seq<Bytes>, n: int) {
    0 <= n <= |before| && after == before[n..]
  }

  lemma TakenNext(before: seq<Bytes>, after: seq<Bytes>, n: nat)
    requires Taken(before, after, n)
    ensures n == |before| - |after|
    ensures after != [] ==> after[0] == before[n] && Taken(before, after[1..], n + 1)
  {
  }

  lemma AndNothing<T>(a: seq<T>)
    ensures a + [] == a
  {
  }

  lemma Regroup<T>(a: seq<T>, b: seq<T>, c: seq<T>)
    ensures a + b + c == a + (b + c)
  {
  }

  /** What reading one more piece does to the three accounts. */
  lemma Absorbed(was: Bytes, given: Bytes, held: Bytes, piece: Bytes, rest: Bytes)
    requires given + held == Filtered(was)
    ensures given + held + Filtered(piece) == given + (held + Filtered(piece)) == Filtered(was + piece)
    ensures held + Filtered(piece) + Filtered(rest) == held + Filtered(piece + rest)
    ensures was + piece + rest == was + (piece + rest)
  {
    hide Filtered;
    FilteredConcat(was, piece);
    FilteredConcat(piece, rest);
    Regroup(given, held, Filtered(piece));
    Regroup(held, Filtered(piece), Filtered(rest));
  }

  /** What a call has taken off the reader when it is cancelled after `awaits`
      awaits, and the piece that it had in hand. */
  ghost predicate Cancelled(before: seq<Bytes>, after: seq<Bytes>, awaits: nat, lost: Bytes) {
    var n := awaits / 2;
    if awaits % 2 == 0 then Taken(before, after, n) && lost == []
    else n < |before| && Taken(before, after, n + 1) && lost == Filtered(before[n])
  }

  /** A cancelled call loses nothing if and only if it was waiting for a piece, or
      the piece in hand held carriage returns only. */
  lemma WhenLost(before: seq<Bytes>, after: seq<Bytes>, n: nat, awaits: nat, lost: Bytes)
    requires awaits == 2 * n ==> Taken(before, after, n) && lost == []
    requires awaits == 2 * n + 1 ==> n < |before| && Taken(before, after, n + 1) && lost == Filtered(before[n])
    requires awaits == 2 * n || awaits == 2 * n + 1
    ensures Cancelled(before, after, awaits, lost)
    ensures lost == [] <==> awaits % 2 == 0 || Filtered(before[awaits / 2]) == []
  {
  }

  class ReadAsserter {
    const buffer: SearchableBuffer
    /** What the reader has still to deliver, one non-empty piece per read. */
    var incoming: seq<Bytes>
    /** All that has been read, and all that has been handed out. */
    ghost var consumed: Bytes
    ghost var given: Bytes

    ghost predicate Valid() reads this { forall i | 0 <= i < |incoming| :: incoming[i] != [] }

    /** Nothing has been lost, duplicated or reordered. */
    ghost predicate Conserved() reads this, buffer { given + buffer.buffer == Filtered(consumed) }

    /** The stream that is still to be handed out. */
    ghost function Stream(): Bytes reads this, buffer { buffer.buffer + Filtered(Flat(incoming)) }

    constructor (chunks: seq<Bytes>)
      requires forall i | 0 <= i < |chunks| :: chunks[i] != []
      ensures Valid() && Conserved() && incoming == chunks && consumed == [] && given == [] && fresh(buffer)
    {
      buffer := new SearchableBuffer([]);
      incoming, consumed, given := chunks, [], [];
    }

    /** Takes the next piece off the reader; an empty one stands for end of file. */
    method Read() returns (piece: Bytes)
      requires Valid()
      modifies this
      ensures Valid() && given == old(given) && consumed == old(consumed) + piece
      ensures piece + Flat(incoming) == old(Flat(incoming))
      ensures piece == [] ==> incoming == old(incoming) == []
      ensures piece != [] ==> old(incoming) != [] && piece == old(incoming)[0] && incoming == old(incoming)[1..]
    {
      if incoming == [] { return []; }
      piece, incoming := incoming[0], incoming[1..];
      consumed := consumed + piece;
    }

    /** One read, up to where the piece is echoed but not yet appended; nothing at
        end of file. */
    method NextInput() returns (input: Option<Bytes>)
      requires Valid() && Conserved()
      modifies this
      ensures Valid() && given == old(given) && consumed + Flat(incoming) == old(consumed + Flat(incoming))
      ensures input.None? ==> incoming == old(incoming) == [] && consumed == old(consumed)
      ensures input.Some? ==> old(incoming) != [] && incoming == old(incoming)[1..]
      ensures input.Some? ==> input.value == Filtered(old(incoming)[0])
      ensures input.Some? ==>
                given + buffer.buffer + input.value == given + (buffer.buffer + input.value) == Filtered(consumed)
      ensures input.Some? ==> buffer.buffer + input.value + Filtered(Flat(incoming)) == old(Stream())
    {
      hide Filtered, Flat;
      ghost var was := consumed;
      var piece := Read();
      Absorbed(was, given, buffer.buffer, piece, Flat(incoming));
      if piece == [] { return None; }
      var kept := Retain(piece);
      return Some(kept);
    }

    /** The attempt at the top of the loop. */
    method TakeFront(needle: Bytes) returns (front: Option<Bytes>)
      requires Valid() && Conserved() && needle != []
      modifies this`given, buffer
      ensures Valid() && Conserved()
      ensures front.Some? ==> front.value + Stream() == old(Stream()) && FirstEnd(old(Stream()), needle, |front.value|)
      ensures front.None? ==> given == old(given) && buffer.buffer == old(buffer.buffer)
                              && forall e: nat :: !EndsAt(buffer.buffer, needle, e)
    {
      hide Filtered, Flat, FirstEnd, EndsAt;
      ghost var held, behind := buffer.buffer, Filtered(Flat(incoming));
      front := buffer.FindAndRemove(needle);
      if front.Some? {
        FirstEndOfPrefix(held, behind, needle, |front.value|);
        Regroup(front.value, buffer.buffer, behind);
        Regroup(given, front.value, buffer.buffer);
        given := given + front.value;
      }
    }

    /** read_until_inner() under a timer: `awaits` is how many awaits complete before
        it cancels the call, if it does. A cancelled call stops where it waits, for
        every second await with a piece that it has read but not yet appended, which
        is then gone. */
    method ReadUntil(needle: Bytes, awaits: Option<nat>) returns (r: Outcome, ghost lost: Bytes)
      requires Valid() && Conserved() && needle != []
      modifies this, buffer
      ensures Valid() && given + buffer.buffer + lost == Filtered(consumed)
      ensures consumed + Flat(incoming) == old(consumed + Flat(incoming))
      ensures r.Found? ==>
                lost == [] && r.front + Stream() == old(Stream()) && FirstEnd(old(Stream()), needle, |r.front|)
      ensures r.Eof? ==> lost == [] && incoming == [] && buffer.buffer == r.buffered == old(Stream())
                         && forall e: nat :: !EndsAt(old(Stream()), needle, e)
      ensures r.Timeout? ==> awaits.Some? && r.buffered == buffer.buffer
                             && buffer.buffer + lost + Filtered(Flat(incoming)) == old(Stream())
                             && forall e: nat :: !EndsAt(buffer.buffer, needle, e)
      ensures r.Timeout? ==> Cancelled(old(incoming), incoming, awaits.value, lost)
      ensures r.Timeout? ==> (lost == [] <==> awaits.value % 2 == 0 || Filtered(old(incoming)[awaits.value / 2]) == [])
      ensures r.Eof? ==> awaits.None? || awaits.value > 2 * |old(incoming)|
      ensures r.Found? ==> Taken(old(incoming), incoming, |old(incoming)| - |incoming|)
                           && (awaits.None? || 2 * (|old(incoming)| - |incoming|) <= awaits.value)
    {
      lost := [];
      var n: nat := 0;
      while true
        invariant Taken(old(incoming), incoming, n)
        invariant Valid() && Conserved() && given == old(given) && Stream() == old(Stream()) && lost == []
        invariant consumed + Flat(incoming) == old(consumed + Flat(incoming))
        invariant awaits.Some? ==> 2 * n <= awaits.value
        decreases |incoming|
      {
        hide Filtered, Flat, FirstEnd, EndsAt, Cancelled;
        TakenNext(old(incoming), incoming, n);
        hide Taken;
        var front := TakeFront(needle);
        AndNothing(buffer.buffer);
        AndNothing(given + buffer.buffer);
        if front.Some? { return Found(front.value), []; }
        if awaits == Some(2 * n) {
          WhenLost(old(incoming), incoming, n, awaits.value, []);
          return Timeout(buffer.buffer), [];
        }
        var input := NextInput();
        if input.None? {
          NothingLeft();
          return Eof(buffer.buffer), [];
        }
        if awaits == Some(2 * n + 1) {
          WhenLost(old(incoming), incoming, n, awaits.value, input.value);
          return Timeout(buffer.buffer), input.value;
        }
        buffer.Append(input.value);
        n := n + 1;
      }
    }

    /** A session without time limits. The answers depend on the stream alone: the
        same bytes cut into other pieces give the same answers. */
    method Session(needles: seq<Bytes>) returns (answers: seq<Option<Bytes>>)
      requires Valid() && Conserved() && forall i | 0 <= i < |needles| :: needles[i] != []
      modifies this, buffer
      ensures Valid() && Conserved() && answers == Answers(old(Stream()), needles)
    {
      hide Filtered, Flat, FirstEnd, EndsAt, FindEnd, Answers;
      answers := [];
      assert needles[0..] == needles;
      for i := 0 to |needles|
        invariant Valid() && Conserved()
        invariant answers + Answers(Stream(), needles[i..]) == Answers(old(Stream()), needles)
      {
        ghost var stream := Stream();
        var r: Outcome;
        ghost var lost;
        r, lost := ReadUntil(needles[i], None);
        NothingLeft();
        NextAnswer(stream, needles, i, r, Stream());
        var answer := if r.Found? then Some(r.front) else None;
        Regroup(answers, [answer], Answers(Stream(), needles[i + 1..]));
        answers := answers + [answer];
      }
      NoNeedles(Stream());
      assert needles[|needles|..] == [] && answers + [] == answers;
    }

    /** read_available(): the pieces that arrive before the reader falls silent, or
        ends, and then everything at once. */
    method ReadAvailable(arriving: nat) returns (all: Bytes)
      requires Valid() && Conserved()
      modifies this, buffer
      ensures Valid() && Conserved() && buffer.buffer == [] && all + Stream() == old(Stream())
      ensures given == old(given) + all && consumed + Flat(incoming) == old(consumed + Flat(incoming))
    {
      var left := arriving;
      while left > 0
        invariant Valid() && Conserved() && given == old(given) && Stream() == old(Stream())
        invariant consumed + Flat(incoming) == old(consumed + Flat(incoming))
      {
        hide Filtered, Flat;
        var input := NextInput();
        if input.None? { break; }
        buffer.Append(input.value);
        left := left - 1;
      }
      all := buffer.Drain();
      given := given + all;
    }
  }

  /** A call that loses what it has read: one piece arrives, and the timer fires while
      that piece is being echoed. */
  method LosingCall() returns (reader: ReadAsserter, r: Outcome, ghost lost: Bytes)
    ensures reader.incoming == [] && reader.buffer.buffer == reader.given == [] && reader.consumed == [65]
    ensures r == Timeout([]) && lost == [65] && !reader.Conserved()
  {
    reader := new ReadAsserter([[65]]);
    assert Flat([[65]]) == [65] && Filtered([65]) == [65];
    r, lost := reader.ReadUntil([66], Some(1));
    assert reader.consumed + [] == reader.consumed;
  }

  /** One answer of a session. */
  lemma NextAnswer(stream: Bytes, needles: seq<Bytes>, i: nat, r: Outcome, after: Bytes)
    requires i < |needles| && !r.Timeout?
    requires r.Found? ==> r.front + after == stream && FirstEnd(stream, needles[i], |r.front|)
    requires r.Eof? ==> after == stream && forall e: nat :: !EndsAt(stream, needles[i], e)
    ensures Answers(stream, needles[i..]) ==
            [if r.Found? then Some(r.front) else None] + Answers(after, needles[i + 1..])
  {
    assert needles[i..][1..] == needles[i + 1..] && needles[i..][0] == needles[i];
    if r.Found? {
      FirstEndUnique(stream, needles[i], |r.front|);
      assert stream[..|r.front|] == r.front && stream[|r.front|..] == after;
    }
  }

  lemma NoNeedles(stream: Bytes)
    ensures Answers(stream, []) == []
  {
  }

  lemma NothingLeft()
    ensures Filtered(Flat([])) == []
  {
  }

  /** The loop inside retain(). */
  method Retain(data: Bytes) returns (kept: Bytes)
    ensures kept == Filtered(data)
  {
    kept := [];
    for i := 0 to |data|
      invariant kept == Filtered(data[..i])
    {
      assert data[..i + 1] == data[..i] + [data[i]];
      FilteredConcat(data[..i], [data[i]]);
      if data[i] != CARRIAGE_RETURN { kept := kept + [data[i]]; }
    }
    assert data[..|data|] == data;
  }
}
