/** mailbox/mbox.c: a circular byte buffer that holds framed messages. A message is a header of
  * four bytes, its size in little-endian order, followed by its body. The methods are the parts
  * of mbox_send, mbox_recv and mbox_stat that run with the mailbox locked; the waiting around
  * them is the subject of the module Monitor.
  */
module Mailbox {
  const BUFFER_SIZE: nat := 1024
  const HEADER: nat := 4

  type Byte = b: int | 0 <= b < 256

  /** The size field of a message, as the bytes of a 32-bit integer. */
  function Header(size: nat): (bytes: seq<Byte>)
    ensures |bytes| == HEADER
  {
    [size % 256, size / 256 % 256, size / 65536 % 256, size / 16777216 % 256]
  }

  function SizeIn(bytes: seq<Byte>): nat
    requires |bytes| >= HEADER
  {
    var b0: int, b1: int, b2: int, b3: int := bytes[0], bytes[1], bytes[2], bytes[3];
    b0 + 256 * b1 + 65536 * b2 + 16777216 * b3
  }

  function Encode(body: seq<Byte>): (bytes: seq<Byte>)
    ensures |bytes| == HEADER + |body|
  {
    Header(|body|) + body
  }

  /** The header tells the size of the body, for every size a 32-bit integer can hold. */
  lemma HeaderRoundTrip(size: nat)
    requires size < 0x1_0000_0000
    ensures SizeIn(Header(size)) == size
  {
    var a, b, c := size / 256, size / 65536, size / 16777216;
    assert b == a / 256 && c == b / 256;
    assert size == 256 * a + size % 256 && a == 256 * b + a % 256 && b == 256 * c + b % 256;
  }

  /** The bytes of a queue of messages, oldest first. */
  function Stream(messages: seq<seq<Byte>>): seq<Byte> {
    if messages == [] then [] else Encode(messages[0]) + Stream(messages[1..])
  }

  /** The buffer space that a queue of messages takes. */
  function Used(messages: seq<seq<Byte>>): (n: nat)
    ensures n == |Stream(messages)| && (n == 0 <==> messages == [])
  {
    if messages == [] then 0 else HEADER + |messages[0]| + Used(messages[1..])
  }

  lemma {:induction false} StreamAppend(messages: seq<seq<Byte>>, body: seq<Byte>)
    ensures Stream(messages + [body]) == Stream(messages) + Encode(body)
  {
    if messages == [] {
      assert [body][1..] == [] && Stream([]) == [];
    } else {
      assert (messages + [body])[1..] == messages[1..] + [body];
      StreamAppend(messages[1..], body);
    }
  }

  /** What the front of the byte stream is. */
  lemma FrontOf(messages: seq<seq<Byte>>)
    requires messages != []
    ensures var n := HEADER + |messages[0]|;
            && n + Used(messages[1..]) == Used(messages)
            && Stream(messages)[..HEADER] == Header(|messages[0]|)
            && Stream(messages)[..n] == Encode(messages[0])
            && Stream(messages)[n..] == Stream(messages[1..])
  {
  }

  /** The index in the buffer of the byte i places behind start. */
  function Wrap(start: nat, i: nat): (w: nat)
    ensures w < BUFFER_SIZE
  {
    (start + i) % BUFFER_SIZE
  }

  lemma WrapInjective(start: nat, i: nat, j: nat)
    requires i < j < i + BUFFER_SIZE
    ensures Wrap(start, i) != Wrap(start, j)
  {
  }

  lemma WrapShift(start: nat, i: nat, j: nat)
    ensures Wrap(Wrap(start, i), j) == Wrap(start, i + j)
  {
  }

  lemma WrapAround(start: nat, k: nat)
    ensures Wrap(start, k + BUFFER_SIZE) == Wrap(start, k)
  {
  }

  /** The n bytes of the ring that begin at start. */
  function Slice(ring: seq<Byte>, start: nat, n: nat): (s: seq<Byte>)
    requires |ring| == BUFFER_SIZE
    ensures |s| == n
    ensures forall k :: 0 <= k < n ==> s[k] == ring[Wrap(start, k)]
  {
    seq(n, k requires 0 <= k < n => ring[Wrap(start, k)])
  }

  /** Every byte outside the n bytes that begin at start is the same. */
  ghost predicate SameOutside(was: seq<Byte>, now: seq<Byte>, start: nat, n: nat)
    requires |was| == BUFFER_SIZE && |now| == BUFFER_SIZE
  {
    forall k: nat {:trigger Wrap(start, k)} :: n <= k < BUFFER_SIZE ==> now[Wrap(start, k)] == was[Wrap(start, k)]
  }

  /** Bytes written right behind a slice lengthen it. */
  lemma SliceGrows(was: seq<Byte>, now: seq<Byte>, start: nat, used: nat, data: seq<Byte>)
    requires |was| == BUFFER_SIZE && |now| == BUFFER_SIZE && used + |data| <= BUFFER_SIZE
    requires Slice(now, Wrap(start, used), |data|) == data
    requires SameOutside(was, now, Wrap(start, used), |data|)
    ensures Slice(now, start, used + |data|) == Slice(was, start, used) + data
  {
    hide Wrap;
    forall k: nat | k < used + |data|
      ensures Slice(now, start, used + |data|)[k] == (Slice(was, start, used) + data)[k]
    {
      if k < used {
        WrapShift(start, used, BUFFER_SIZE - used + k);
        WrapAround(start, k);
        assert used + (BUFFER_SIZE - used + k) == k + BUFFER_SIZE;
        var back := BUFFER_SIZE - used + k;
        assert now[Wrap(Wrap(start, used), back)] == was[Wrap(Wrap(start, used), back)];
      } else {
        WrapShift(start, used, k - used);
        assert data[k - used] == now[Wrap(Wrap(start, used), (k - used))];
      }
    }
  }

  /** A slice without its first bytes is the slice that begins behind them. */
  lemma SliceDrops(ring: seq<Byte>, start: nat, n: nat, k: nat)
    requires |ring| == BUFFER_SIZE && k <= n
    ensures Slice(ring, Wrap(start, k), n - k) == Slice(ring, start, n)[k..]
    ensures Slice(ring, start, k) == Slice(ring, start, n)[..k]
  {
    hide Wrap;
    forall j: nat | j < n - k
      ensures Slice(ring, Wrap(start, k), n - k)[j] == Slice(ring, start, n)[k..][j]
    {
      WrapShift(start, k, j);
    }
  }

  /** The ring holds exactly these messages, from tail up to head. */
  ghost predicate Holds(ring: seq<Byte>, head: nat, tail: nat, count: int, messages: seq<seq<Byte>>) {
    && |ring| == BUFFER_SIZE && head < BUFFER_SIZE && tail < BUFFER_SIZE
    && count == |messages| && Used(messages) <= BUFFER_SIZE
    && head == Wrap(tail, Used(messages))
    && Slice(ring, tail, Used(messages)) == Stream(messages)
    && (forall m :: m in messages ==> |m| < 0x1_0000_0000)
  }

  /** A message written at head joins the end of the queue. */
  lemma Pushes(was: seq<Byte>, now: seq<Byte>, head: nat, tail: nat, count: int,
               messages: seq<seq<Byte>>, body: seq<Byte>)
    requires Holds(was, head, tail, count, messages) && |now| == BUFFER_SIZE
    requires |body| < 0x1_0000_0000 && Used(messages) + |Encode(body)| <= BUFFER_SIZE
    requires Slice(now, head, |Encode(body)|) == Encode(body) && SameOutside(was, now, head, |Encode(body)|)
    ensures Holds(now, Wrap(head, |Encode(body)|), tail, count + 1, messages + [body])
  {
    hide Wrap;
    SliceGrows(was, now, tail, Used(messages), Encode(body));
    StreamAppend(messages, body);
    WrapShift(tail, Used(messages), |Encode(body)|);
  }

  /** The bytes at tail are the oldest message; behind them the ring holds the rest. */
  lemma Pops(ring: seq<Byte>, head: nat, tail: nat, count: int, messages: seq<seq<Byte>>)
    requires Holds(ring, head, tail, count, messages) && messages != []
    ensures Slice(ring, tail, HEADER) == Header(|messages[0]|) && SizeIn(Header(|messages[0]|)) == |messages[0]|
    ensures Slice(ring, tail, HEADER + |messages[0]|) == Encode(messages[0])
    ensures Holds(ring, head, Wrap(tail, HEADER + |messages[0]|), count - 1, messages[1..])
  {
    var used, n := Used(messages), HEADER + |messages[0]|;
    FrontOf(messages);
    HeaderRoundTrip(|messages[0]|);
    hide Wrap, SizeIn, Header, Stream, Encode;
    SliceDrops(ring, tail, used, HEADER);
    SliceDrops(ring, tail, used, n);
    WrapShift(tail, n, used - n);
  }

  /** space_available: it compares indices only; count tells an empty ring from a full one. */
  function SpaceIn(head: nat, tail: nat, count: int): int {
    if tail == head && count != 0 then 0
    else if tail > head then tail - head
    else tail + BUFFER_SIZE - head
  }

  /** The space is what the messages leave of the buffer. */
  lemma SpaceIsFree(ring: seq<Byte>, head: nat, tail: nat, count: int, messages: seq<seq<Byte>>)
    requires Holds(ring, head, tail, count, messages)
    ensures SpaceIn(head, tail, count) == BUFFER_SIZE - Used(messages)
  {
  }

  class Mailbox {
    var count: int
    var head: nat
    var tail: nat
    const buffer: array<Byte>
    ghost var messages: seq<seq<Byte>>
    ghost var sent: seq<seq<Byte>>
    ghost var received: seq<seq<Byte>>

    ghost predicate Valid()
      reads this, buffer
    {
      && buffer.Length == BUFFER_SIZE
      && Holds(buffer[..], head, tail, count, messages)
      && sent == received + messages
    }

    constructor ()
      ensures Valid() && messages == [] && sent == []
    {
      count, head, tail := 0, 0, 0;
      messages, sent, received := [], [], [];
      buffer := new Byte[BUFFER_SIZE](_ => 0);
    }

    function SpaceAvailable(): (space: int)
      requires Valid()
      reads this, buffer
      ensures space == BUFFER_SIZE - Used(messages)
    {
      SpaceIsFree(buffer[..], head, tail, count, messages);
      SpaceIn(head, tail, count)
    }

    method Stat() returns (messagesHeld: int, space: int)
      requires Valid()
      ensures messagesHeld == |messages| && space == BUFFER_SIZE - Used(messages)
    {
      messagesHeld, space := count, SpaceAvailable();
    }

    /** The loop that writes the first n bytes of m to the ring. */
    method CopyIn(m: array<Byte>, start: nat, n: nat)
      requires buffer.Length == BUFFER_SIZE && m != buffer && n <= m.Length && n <= BUFFER_SIZE
      modifies buffer
      ensures Slice(buffer[..], start, n) == m[..n]
      ensures SameOutside(old(buffer[..]), buffer[..], start, n)
    {
      hide Wrap;
      var i := 0;
      while i < n
        invariant 0 <= i <= n
        invariant forall k: nat {:trigger Wrap(start, k)} :: k < i ==> buffer[Wrap(start, k)] == m[k]
        invariant SameOutside(old(buffer[..]), buffer[..], start, i)
      {
        forall k: nat | k < BUFFER_SIZE && k != i
          ensures Wrap(start, k) != Wrap(start, i)
        {
          WrapInjective(start, if k < i then k else i, if k < i then i else k);
        }
        buffer[Wrap(start, i)] := m[i];
        i := i + 1;
      }
    }

    /** The loop that reads n bytes of the ring into m. */
    method CopyOut(m: array<Byte>, start: nat, n: nat)
      requires buffer.Length == BUFFER_SIZE && m != buffer && n <= m.Length
      modifies m
      ensures m[..n] == Slice(buffer[..], start, n)
      ensures forall k :: n <= k < m.Length ==> m[k] == old(m[k])
    {
      hide Wrap;
      var i := 0;
      while i < n
        invariant 0 <= i <= n
        invariant forall k: nat {:trigger Wrap(start, k)} :: k < i ==> m[k] == buffer[Wrap(start, k)]
        invariant forall k :: i <= k < m.Length ==> m[k] == old(m[k])
      {
        m[i] := buffer[Wrap(start, i)];
        i := i + 1;
      }
    }

    /** Insert the message that m holds; there is room for it. */
    method Send(m: array<Byte>, ghost body: seq<Byte>)
      requires Valid() && m != buffer && Encode(body) <= m[..] && |body| < 0x1_0000_0000
      requires HEADER + |body| <= SpaceAvailable()
      modifies this`head, this`count, this`messages, this`sent, buffer
      ensures Valid() && messages == old(messages) + [body] && sent == old(sent) + [body]
    {
      ghost var was := buffer[..];
      HeaderRoundTrip(|body|);
      assert m[..HEADER] == Header(|body|);
      hide Holds, SizeIn, Header;
      var start := head;
      var size := HEADER + SizeIn(m[..HEADER]);
      assert m[..size] == Encode(body);
      CopyIn(m, start, size);
      head := Wrap(start, size);
      count := count + 1;
      Pushes(was, buffer[..], start, tail, count - 1, messages, body);
      messages, sent := messages + [body], sent + [body];
    }

    /** Fetch the oldest message into m: first the header, for the size, then header and body. */
    method Recv(m: array<Byte>)
      requires Valid() && count > 0 && m != buffer && m.Length >= HEADER + |messages[0]|
      modifies this`tail, this`count, this`messages, this`received, m
      ensures Valid() && messages == old(messages)[1..] && received == old(received) + [old(messages)[0]]
      ensures m[..HEADER + |old(messages)[0]|] == Encode(old(messages)[0])
      ensures forall k :: HEADER + |old(messages)[0]| <= k < m.Length ==> m[k] == old(m[k])
    {
      ghost var body := messages[0];
      Pops(buffer[..], head, tail, count, messages);
      hide Holds, SizeIn, Header, Wrap, Slice, Encode;
      var start := tail;
      CopyOut(m, start, HEADER);
      var size := HEADER + SizeIn(m[..HEADER]);
      CopyOut(m, start, size);
      tail := Wrap(start, size);
      count := count - 1;
      assert messages == [body] + messages[1..];
      messages, received := messages[1..], received + [body];
    }
  }
}
