/** Length-prefixed messages: base-128 varints and the framing built on them. */
module Protolib {

  import opened Options
  import opened Powers

  type Byte = b: int | 0 <= b < 256

  const MASK := 0x1_0000_0000
  const SIGN := 0x8000_0000_0000_0000

  lemma {:induction false} Pow2Add7(n: nat)
    ensures Power(2, n + 7) == 128 * Power(2, n) && Power(2, n) >= 1
  {
    if n > 0 {
      Pow2Add7(n - 1);
    }
    assert Power(2, n + 7) == 2 * Power(2, n + 6) && Power(2, n + 6) == 2 * Power(2, n + 5);
    assert Power(2, n + 5) == 2 * Power(2, n + 4) && Power(2, n + 4) == 2 * Power(2, n + 3);
    assert Power(2, n + 3) == 2 * Power(2, n + 2) && Power(2, n + 2) == 2 * Power(2, n + 1);
  }

  // ---------- Varints ----------

  /** Seven bits per byte, least significant first, all but the last byte marked. */
  function Varint(n: nat): (s: seq<Byte>)
    ensures |s| >= 1
  {
    if n < 128 then [n] else [128 + n % 128] + Varint(n / 128)
  }

  /** What the decoder makes of the accumulated bits: 32 bits, sign-extended if bit 63 or a higher one is set. */
  function Narrow(raw: nat): int {
    if raw >= SIGN then raw % MASK - MASK else raw % MASK
  }

  datatype Decoded = EndOfFile | TooManyBytes | Number(value: int, next: nat)

  /** Decoding from position pos, with `raw` accumulated below bit `shift`. */
  function DecodeAt(data: seq<Byte>, pos: nat, raw: nat, shift: nat): Decoded
    decreases |data| - pos
  {
    if pos >= |data| then EndOfFile
    else
      var raw' := raw + (data[pos] % 128) * Power(2, shift);
      if data[pos] < 128 then Number(Narrow(raw'), pos + 1)
      else if shift + 7 >= 64 then TooManyBytes
      else DecodeAt(data, pos + 1, raw', shift + 7)
  }

  /** data holds piece at position pos. */
  predicate HoldsAt<T(==)>(data: seq<T>, pos: nat, piece: seq<T>) {
    pos + |piece| <= |data| && data[pos..pos + |piece|] == piece
  }

  lemma SplitDigits(raw: nat, n: nat, p: nat)
    ensures raw + (n % 128) * p + (n / 128) * (128 * p) == raw + n * p
  {
    assert n == 128 * (n / 128) + n % 128;
    Distribute(128 * (n / 128), n % 128, p);
    assert (n / 128) * (128 * p) == (128 * (n / 128)) * p;
  }

  lemma Distribute(a: int, b: int, p: int)
    ensures (a + b) * p == a * p + b * p
  {
  }

  /** A number of seven more bits still fits, so its next byte stays below the decoder's limit. */
  lemma ShiftStaysShort(n: nat, shift: nat)
    requires n >= 128 && n * Power(2, shift) < SIGN
    ensures shift + 7 < 64
  {
    if shift >= 57 {
      Pow2Large(shift);
      ScaleBoth(128, n, 0x200_0000_0000_0000, Power(2, shift));
    }
  }

  lemma ScaleBoth(a: nat, b: nat, p: nat, q: nat)
    requires a <= b && p <= q
    ensures a * p <= b * q
  {
    assert a * p <= a * q;
    assert a * q <= b * q;
  }

  lemma Pow2Large(n: nat)
    requires n >= 57
    ensures Power(2, n) >= 0x200_0000_0000_0000
  {
    Pow2Add7(n - 7);
    Pow2Add7(n - 14);
    Pow2Add7(n - 21);
    Pow2Add7(n - 28);
    Pow2Add7(n - 35);
    Pow2Add7(n - 42);
    Pow2Add7(n - 49);
    Pow2Add7(n - 56);
    Pow2Add7(n - 57);
  }

  /** Decoding a varint adds the number, shifted into place, and stops right behind it. */
  lemma {:induction false} DecodeVarint(data: seq<Byte>, pos: nat, n: nat, raw: nat, shift: nat)
    requires HoldsAt(data, pos, Varint(n)) && n * Power(2, shift) < SIGN
    ensures DecodeAt(data, pos, raw, shift) == Number(Narrow(raw + n * Power(2, shift)), pos + |Varint(n)|)
    decreases n
  {
    hide Varint, DecodeAt, Power, Narrow;
    VarintUnfold(n);
    HeadAndTail(data, pos, Varint(n));
    DecodeUnfold(data, pos, raw, shift);
    if n >= 128 {
      var p := Power(2, shift);
      ShiftStaysShort(n, shift);
      Pow2Add7(shift);
      SplitDigits(raw, n, p);
      SplitDigits(0, n, p);
      DecodeVarint(data, pos + 1, n / 128, raw + (n % 128) * p, shift + 7);
    }
  }

  lemma VarintUnfold(n: nat)
    ensures n < 128 ==> Varint(n) == [n]
    ensures n >= 128 ==> Varint(n)[0] == 128 + n % 128 && Varint(n)[1..] == Varint(n / 128)
  {
  }

  lemma HeadAndTail(data: seq<Byte>, pos: nat, piece: seq<Byte>)
    requires HoldsAt(data, pos, piece) && |piece| > 0
    ensures data[pos] == piece[0] && HoldsAt(data, pos + 1, piece[1..])
  {
    assert data[pos] == data[pos..pos + |piece|][0];
    assert data[pos + 1..pos + |piece|] == data[pos..pos + |piece|][1..];
  }

  lemma DecodeUnfold(data: seq<Byte>, pos: nat, raw: nat, shift: nat)
    requires pos < |data|
    ensures var raw' := raw + (data[pos] % 128) * Power(2, shift);
      DecodeAt(data, pos, raw, shift)
      == if data[pos] < 128 then Number(Narrow(raw'), pos + 1)
         else if shift + 7 >= 64 then TooManyBytes
         else DecodeAt(data, pos + 1, raw', shift + 7)
  {
  }

  /** Every 63-bit number decodes to its low 32 bits, so the round trip is exact exactly below 2^32. */
  lemma VarintRoundTrip(data: seq<Byte>, pos: nat, n: nat)
    requires HoldsAt(data, pos, Varint(n)) && n < SIGN
    ensures DecodeAt(data, pos, 0, 0) == Number(n % MASK, pos + |Varint(n)|)
    ensures DecodeAt(data, pos, 0, 0).value == n <==> n < MASK
  {
    hide Power, Varint, DecodeAt, HoldsAt;
    PowerZero(2);
    DecodeVarint(data, pos, n, 0, 0);
  }

  // ---------- Any bytes at all ----------

  /** At least k bytes from pos on are marked as continued. */
  ghost predicate Continued(data: seq<Byte>, pos: nat, k: nat) {
    pos + k <= |data| && forall i :: pos <= i < pos + k ==> data[i] >= 128
  }

  /** The number that the low seven bits of k bytes denote in base 128, least significant first. */
  function Base128(data: seq<Byte>, pos: nat, k: nat): nat
    decreases k
  {
    if k == 0 || pos >= |data| then 0 else data[pos] % 128 + 128 * Base128(data, pos + 1, k - 1)
  }

  /** x narrowed to 32 bits: below 2^63 the residue modulo 2^32, and from there on that residue less 2^32. */
  ghost predicate IsNarrowed(v: int, x: nat) {
    if x < 0x8000_0000_0000_0000
    then 0 <= v < 0x1_0000_0000 && (x - v) % 0x1_0000_0000 == 0
    else -0x1_0000_0000 <= v < 0 && (x - v) % 0x1_0000_0000 == 0
  }

  lemma NarrowExact(x: nat)
    ensures IsNarrowed(Narrow(x), x)
  {
    var q, r := x / MASK, x % MASK;
    assert x - r == MASK * q && x - (r - MASK) == MASK * (q + 1);
    MultipleHasNoRest(q);
    MultipleHasNoRest(q + 1);
  }

  lemma MultipleHasNoRest(q: nat)
    ensures (MASK * q) % MASK == 0
  {
  }

  lemma {:induction false} DecodeRun(data: seq<Byte>, pos: nat, raw: nat, shift: nat, k: nat)
    requires Continued(data, pos, k) && shift + 7 * k < 64
    ensures pos + k == |data| ==> DecodeAt(data, pos, raw, shift) == EndOfFile
    ensures pos + k < |data| && data[pos + k] >= 128 && shift + 7 * k + 7 >= 64 ==>
      DecodeAt(data, pos, raw, shift) == TooManyBytes
    ensures pos + k < |data| && data[pos + k] < 128 ==>
      DecodeAt(data, pos, raw, shift)
      == Number(Narrow(raw + Base128(data, pos, k + 1) * Power(2, shift)), pos + k + 1)
    decreases k
  {
    hide Power, Narrow;
    if k > 0 {
      var p := Power(2, shift);
      hide DecodeAt;
      DecodeUnfold(data, pos, raw, shift);
      DecodeRun(data, pos + 1, raw + (data[pos] % 128) * p, shift + 7, k - 1);
      Pow2Add7(shift);
      if pos + k < |data| {
        JoinDigits(raw, data[pos] % 128, Base128(data, pos + 1, k), p);
      }
    } else if pos < |data| {
      assert Base128(data, pos, 1) == data[pos] % 128 + 128 * Base128(data, pos + 1, 0);
    }
  }

  lemma JoinDigits(raw: nat, d: nat, rest: nat, p: nat)
    ensures raw + d * p + rest * (128 * p) == raw + (d + 128 * rest) * p
  {
    Distribute(d, 128 * rest, p);
    assert rest * (128 * p) == (128 * rest) * p;
  }

  /**
   * Decoding any bytes: after fewer than ten continued bytes the end of the
   * file, or the base-128 number narrowed to 32 bits; ten are too many.
   */
  lemma DecodeExactly(data: seq<Byte>, pos: nat, k: nat)
    requires k <= 9 && Continued(data, pos, k)
    ensures pos + k == |data| ==> DecodeAt(data, pos, 0, 0) == EndOfFile
    ensures k == 9 && pos + k < |data| && data[pos + k] >= 128 ==> DecodeAt(data, pos, 0, 0) == TooManyBytes
    ensures pos + k < |data| && data[pos + k] < 128 ==>
      && DecodeAt(data, pos, 0, 0).Number? && DecodeAt(data, pos, 0, 0).next == pos + k + 1
      && IsNarrowed(DecodeAt(data, pos, 0, 0).value, Base128(data, pos, k + 1))
  {
    hide DecodeAt, Power, Narrow, IsNarrowed, Base128;
    PowerZero(2);
    DecodeRun(data, pos, 0, 0, k);
    if pos + k < |data| {
      NarrowExact(Base128(data, pos, k + 1));
    }
  }

  // ---------- Messages ----------

  type Message = seq<Byte>

  /** A message with its length in front. */
  function Frame(m: Message): seq<Byte> {
    Varint(|m|) + m
  }

  function Frames(messages: seq<Message>): seq<Byte> {
    if |messages| == 0 then [] else Frame(messages[0]) + Frames(messages[1..])
  }

  /** Reading up to `size` bytes; a negative size reads to the end. */
  function ReadEnd(length: nat, pos: nat, size: int): nat {
    if size < 0 || pos + size > length then if pos > length then pos else length else pos + size
  }

  datatype Fetched = Nothing | Fetched(message: Message, next: nat)

  /** The message at pos and the position behind it; nothing at the end, after too long a prefix or if it is empty. */
  function NextMessage(data: seq<Byte>, pos: nat): Fetched {
    match DecodeAt(data, pos, 0, 0)
    case EndOfFile => Nothing
    case TooManyBytes => Nothing
    case Number(size, next) =>
      DecodeAdvances(data, pos, 0, 0);
      if size == 0 then Nothing
      else Fetched(data[next..ReadEnd(|data|, next, size)], ReadEnd(|data|, next, size))
  }

  lemma {:induction false} DecodeAdvances(data: seq<Byte>, pos: nat, raw: nat, shift: nat)
    ensures DecodeAt(data, pos, raw, shift).Number? ==> pos < DecodeAt(data, pos, raw, shift).next <= |data|
    decreases |data| - pos
  {
    if pos < |data| && data[pos] >= 128 && shift + 7 < 64 {
      DecodeAdvances(data, pos + 1, raw + (data[pos] % 128) * Power(2, shift), shift + 7);
    }
  }

  /** All messages a reader obtains before the first failure. */
  function ReadAll(data: seq<Byte>, pos: nat): seq<Message>
    decreases |data| - pos
  {
    match NextMessage(data, pos)
    case Nothing => []
    case Fetched(m, next) =>
      DecodeAdvances(data, pos, 0, 0);
      [m] + ReadAll(data, next)
  }

  /** A stored frame is read back, unless it is empty: then reading stops. */
  lemma FrameRoundTrip(data: seq<Byte>, pos: nat, m: Message)
    requires HoldsAt(data, pos, Frame(m)) && |m| < MASK
    ensures NextMessage(data, pos) == if m == [] then Nothing else Fetched(m, pos + |Frame(m)|)
  {
    hide Varint, DecodeAt;
    var k := |Varint(|m|)|;
    assert data[pos..pos + k] == data[pos..pos + |Frame(m)|][..k] == Varint(|m|);
    assert data[pos + k..pos + |Frame(m)|] == data[pos..pos + |Frame(m)|][k..] == m;
    VarintRoundTrip(data, pos, |m|);
  }

  /** A frame cut off by the end of the file yields the bytes that are left. */
  lemma TruncatedFrame(data: seq<Byte>, pos: nat, n: nat)
    requires HoldsAt(data, pos, Varint(n)) && 0 < n < MASK && pos + |Varint(n)| + n > |data|
    ensures NextMessage(data, pos) == Fetched(data[pos + |Varint(n)|..], |data|)
  {
    hide Varint, DecodeAt;
    VarintRoundTrip(data, pos, n);
  }

  /** A length that decodes to a negative number yields everything up to the end of the file. */
  lemma NegativeLength(data: seq<Byte>, pos: nat)
    requires DecodeAt(data, pos, 0, 0).Number? && DecodeAt(data, pos, 0, 0).value < 0
    ensures DecodeAt(data, pos, 0, 0).next <= |data|
    ensures NextMessage(data, pos) == Fetched(data[DecodeAt(data, pos, 0, 0).next..], |data|)
  {
    hide DecodeAt;
    DecodeAdvances(data, pos, 0, 0);
  }

  /** The messages before the first empty one. */
  function BeforeEmpty(messages: seq<Message>): seq<Message> {
    if |messages| == 0 || messages[0] == [] then [] else [messages[0]] + BeforeEmpty(messages[1..])
  }

  lemma {:induction false} StreamRoundTripAt(data: seq<Byte>, pos: nat, messages: seq<Message>)
    requires pos + |Frames(messages)| == |data| && data[pos..] == Frames(messages)
    requires forall i :: 0 <= i < |messages| ==> |messages[i]| < MASK
    ensures ReadAll(data, pos) == BeforeEmpty(messages)
    decreases |messages|
  {
    hide Frame, DecodeAt;
    if |messages| > 0 {
      var m := messages[0];
      var k := |Frame(m)|;
      assert data[pos..pos + k] == data[pos..][..k] == Frame(m);
      FrameRoundTrip(data, pos, m);
      if m != [] {
        assert data[pos + k..] == data[pos..][k..] == Frames(messages[1..]);
        StreamRoundTripAt(data, pos + k, messages[1..]);
      }
    } else {
      EndOfStream(data, pos);
    }
  }

  lemma EndOfStream(data: seq<Byte>, pos: nat)
    requires pos >= |data|
    ensures DecodeAt(data, pos, 0, 0) == EndOfFile
  {
  }

  /** Reading a written stream gives the messages before the first empty one, hence all exactly if none is empty. */
  lemma StreamRoundTrip(messages: seq<Message>)
    requires forall i :: 0 <= i < |messages| ==> |messages[i]| < MASK
    ensures ReadAll(Frames(messages), 0) == BeforeEmpty(messages)
    ensures ReadAll(Frames(messages), 0) == messages <==> forall i :: 0 <= i < |messages| ==> messages[i] != []
  {
    assert Frames(messages)[0..] == Frames(messages);
    StreamRoundTripAt(Frames(messages), 0, messages);
    BeforeEmptyIsAll(messages);
  }

  lemma {:induction false} BeforeEmptyIsAll(messages: seq<Message>)
    ensures BeforeEmpty(messages) == messages <==> forall i :: 0 <= i < |messages| ==> messages[i] != []
  {
    if |messages| > 0 {
      BeforeEmptyIsAll(messages[1..]);
      assert messages == [messages[0]] + messages[1..];
      if messages[0] != [] && BeforeEmpty(messages) == messages {
        assert BeforeEmpty(messages)[1..] == messages[1..];
      }
    }
  }

  lemma VarintNext(bits: nat, value: nat)
    requires bits < 128 && value > 0
    ensures Varint(bits + 128 * value) == [128 + bits] + Varint(value)
  {
    var n := bits + 128 * value;
    assert n % 128 == bits && n / 128 == value;
  }

  lemma VarintEnd(bits: nat)
    requires bits < 128
    ensures Varint(bits) == [bits]
  {
  }

  lemma FramesNext(messages: seq<Message>, i: nat)
    requires i < |messages|
    ensures Frames(messages[i..]) == Frame(messages[i]) + Frames(messages[i + 1..])
  {
    assert messages[i..][1..] == messages[i + 1..];
  }

  lemma NoFrames(messages: seq<Message>)
    requires messages == []
    ensures Frames(messages) == []
  {
  }

  // ---------- The streams ----------

  class OutFile {
    var data: seq<Byte>

    constructor ()
      ensures data == []
    {
      data := [];
    }

    method EncodeVarint32(n: nat)
      modifies this
      ensures data == old(data) + Varint(n)
    {
      hide Varint;
      var bits: Byte, value := n % 128, n / 128;
      ghost var written: seq<Byte> := [];
      while value != 0
        invariant 0 <= bits < 128 && value >= 0
        invariant data == old(data) + written
        invariant Varint(n) == written + Varint(bits + 128 * value)
        decreases value
      {
        VarintNext(bits, value);
        assert value == value % 128 + 128 * (value / 128);
        data := data + [128 + bits];
        written := written + [128 + bits];
        bits, value := value % 128, value / 128;
      }
      VarintEnd(bits);
      data := data + [bits];
    }

    method EncodeMessage(m: Message)
      modifies this
      ensures data == old(data) + Frame(m)
    {
      hide Varint;
      EncodeVarint32(|m|);
      data := data + m;
    }

    method EncodeMessages(messages: seq<Message>)
      requires data == []
      modifies this
      ensures data == Frames(messages)
    {
      hide Frame, Frames;
      assert messages[0..] == messages;
      for i := 0 to |messages|
        invariant Frames(messages) == data + Frames(messages[i..])
      {
        FramesNext(messages, i);
        ghost var before, rest := data, Frames(messages[i + 1..]);
        EncodeMessage(messages[i]);
        assert before + (Frame(messages[i]) + rest) == data + rest;
      }
      NoFrames(messages[|messages|..]);
    }
  }

  class InFile {
    const data: seq<Byte>
    var pos: nat

    constructor (data: seq<Byte>)
      ensures this.data == data && pos == 0
    {
      this.data, pos := data, 0;
    }

    method DecodeVarint32() returns (decoded: Decoded)
      modifies this
      ensures decoded == DecodeAt(data, old(pos), 0, 0)
      ensures decoded.Number? ==> pos == decoded.next <= |data|
    {
      var result: nat, shift: nat := 0, 0;
      while true
        invariant old(pos) <= pos && DecodeAt(data, pos, result, shift) == DecodeAt(data, old(pos), 0, 0)
        decreases |data| - pos
      {
        if pos >= |data| {
          return EndOfFile;
        }
        var b := data[pos];
        result := result + (b % 128) * Power(2, shift);
        pos := pos + 1;
        if b < 128 {
          return Number(Narrow(result), pos);
        }
        shift := shift + 7;
        if shift >= 64 {
          return TooManyBytes;
        }
      }
    }

    /** The next message, if one could be read. */
    method DecodeMessage() returns (message: Option<Message>)
      modifies this
      ensures match NextMessage(data, old(pos))
        case Nothing => message == None
        case Fetched(m, next) => message == Some(m) && pos == next
    {
      hide DecodeAt;
      var decoded := DecodeVarint32();
      DecodeAdvances(data, old(pos), 0, 0);
      if !decoded.Number? || decoded.value == 0 {
        return None;
      }
      var end := ReadEnd(|data|, pos, decoded.value);
      message := Some(data[pos..end]);
      pos := end;
    }

    /** Reads messages until none is left. */
    method DecodeMessages() returns (messages: seq<Message>)
      modifies this
      ensures messages == ReadAll(data, old(pos))
    {
      messages := [];
      while true
        invariant messages + ReadAll(data, pos) == ReadAll(data, old(pos))
        decreases |data| - pos
      {
        DecodeAdvances(data, pos, 0, 0);
        var message := DecodeMessage();
        if message.None? {
          return;
        }
        messages := messages + [message.value];
      }
    }
  }
}
