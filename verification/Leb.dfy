/** LEB128 (section 7.6 of DWARF Version 5): the byte codec of instruction operands. */
module LebEncodings {
  import opened Alignment

  type Byte = x: int | 0 <= x < 256
  type Uint64 = x: int | 0 <= x < 0x1_0000_0000_0000_0000
  type Int64 = x: int | -0x8000_0000_0000_0000 <= x < 0x8000_0000_0000_0000

  const TWO_64 := 0x1_0000_0000_0000_0000

  function Pow128(n: nat): nat { if n == 0 then 1 else 128 * Pow128(n - 1) }

  lemma Pow128Values()
    ensures Pow128(9) == 0x8000_0000_0000_0000 && Pow128(10) == 64 * TWO_64
  {
    assert Pow128(2) == 0x4000 && Pow128(4) == 128 * Pow128(3) && Pow128(3) == 128 * Pow128(2);
    assert Pow128(6) == 128 * Pow128(5) && Pow128(5) == 128 * Pow128(4);
    assert Pow128(8) == 128 * Pow128(7) && Pow128(7) == 128 * Pow128(6);
  }

  /** Reinterpretation of an unsigned word as a signed one. */
  function AsInt64(x: Uint64): Int64 { if x < 0x8000_0000_0000_0000 then x else x - TWO_64 }

  // ---- The encodings ----

  /** Seven bits at a time, least significant first; all bytes but the last have the high bit. */
  function Uleb(value: nat): (s: seq<Byte>)
    ensures |s| > 0
  {
    if value < 128 then [value] else [128 + value % 128] + Uleb(value / 128)
  }

  /** Nothing is left but copies of the sign bit of the last group. */
  predicate SlebEnds(value: int) {
    var b, rest := value % 128, value / 128;
    (rest == 0 && b < 64) || (rest == -1 && b >= 64)
  }

  function Sleb(value: int): (s: seq<Byte>)
    ensures |s| > 0
    decreases if value < 0 then -value else value
  {
    if SlebEnds(value) then [value % 128] else [128 + value % 128] + Sleb(value / 128)
  }

  // ---- Decoding ----

  /** The number made of the low seven bits of the first `n` bytes. */
  function Digits(s: seq<Byte>, n: nat): nat
    requires n <= |s|
  {
    if n == 0 then 0 else Digits(s, n - 1) + (s[n - 1] % 128) * Pow128(n - 1)
  }

  /** The length of the first number in `s`: through the first byte without the high bit. */
  function NumberLength(s: seq<Byte>): (n: nat)
    ensures n <= |s| && (s != [] ==> n > 0)
  {
    if s == [] then 0 else if s[0] < 128 then 1 else 1 + NumberLength(s[1..])
  }

  lemma {:induction false} DigitsTail(s: seq<Byte>, n: nat)
    requires 0 < n <= |s|
    ensures Digits(s, n) == s[0] % 128 + 128 * Digits(s[1..], n - 1)
  {
    if n == 1 {
      assert Digits(s, 1) == Digits(s, 0) + (s[0] % 128) * Pow128(0);
    } else {
      DigitsTail(s, n - 1);
      var d := s[n - 1] % 128;
      assert s[1..][n - 2] == s[n - 1];
      assert d * Pow128(n - 1) == 128 * (d * Pow128(n - 2));
    }
  }

  lemma {:induction false} DigitsPrefix(s: seq<Byte>, t: seq<Byte>, n: nat)
    requires n <= |s|
    ensures Digits(s + t, n) == Digits(s, n)
  {
    if n > 0 { DigitsPrefix(s, t, n - 1); }
  }

  lemma {:induction false} DigitsBound(s: seq<Byte>, n: nat)
    requires n <= |s|
    ensures Digits(s, n) < Pow128(n)
  {
    if n > 0 {
      DigitsBound(s, n - 1);
      var d := s[n - 1] % 128;
      MulLess(d, 128, Pow128(n - 1));
    }
  }

  /** One byte with the high bit in front of a number. */
  lemma ByteInFront(b: Byte, t: seq<Byte>)
    requires b >= 128 && t != []
    ensures var s := [b] + t; var n := NumberLength(t);
            NumberLength(s) == n + 1 && Digits(s, n + 1) == b % 128 + 128 * Digits(t, n)
  {
    var s := [b] + t;
    assert s[1..] == t;
    DigitsTail(s, NumberLength(t) + 1);
  }

  /** A single byte without the high bit. */
  lemma LastByte(b: Byte, t: seq<Byte>)
    requires b < 128
    ensures NumberLength([b] + t) == 1 && Digits([b] + t, 1) == b
  {
    var s := [b] + t;
    assert s[0] == b;
    DigitsTail(s, 1);
    assert Digits(s[1..], 0) == 0;
  }

  lemma UlebStep(rest: nat)
    ensures Uleb(rest) == if rest < 128 then [rest] else [128 + rest % 128] + Uleb(rest / 128)
  {
  }

  /** Decoding an unsigned encoding gives the number back and ends where the encoding ends, whatever
      follows. */
  lemma {:induction false} UlebRoundTrip(value: nat, suffix: seq<Byte>)
    ensures var n := |Uleb(value)|;
            NumberLength(Uleb(value) + suffix) == n && Digits(Uleb(value) + suffix, n) == value
  {
    hide Uleb, Digits, NumberLength;
    UlebStep(value);
    if value < 128 {
      LastByte(value, suffix);
    } else {
      var rest := Uleb(value / 128);
      UlebRoundTrip(value / 128, suffix);
      assert Uleb(value) + suffix == [128 + value % 128] + (rest + suffix);
      ByteInFront(128 + value % 128, rest + suffix);
    }
  }

  lemma {:induction false} UlebLength(value: nat, n: nat)
    requires n > 0 && value < Pow128(n)
    ensures |Uleb(value)| <= n
  {
    if value >= 128 {
      QuotientBelow(value, Pow128(n - 1));
      UlebLength(value / 128, n - 1);
    }
  }

  lemma QuotientBelow(value: nat, bound: nat)
    requires value < 128 * bound
    ensures value / 128 < bound
  {
  }

  /** One more group of seven bits in front. */
  lemma GroupInFront(value: int, power: nat)
    ensures var q := value / 128;
            value % 128 + 128 * (if q >= 0 then q else q + power) == if value >= 0 then value else value + 128 * power
  {
  }

  /** The digits of a signed number, as two's complement of its length. */
  function Wrapped(value: int, n: nat): int { if value >= 0 then value else value + Pow128(n) }

  /** The digits of a signed encoding are the value in two's complement, and the last byte has the sign. */
  lemma {:induction false} SlebRoundTrip(value: int, suffix: seq<Byte>)
    ensures var n := |Sleb(value)|;
            NumberLength(Sleb(value) + suffix) == n && Digits(Sleb(value) + suffix, n) == Wrapped(value, n)
    ensures var last := Sleb(value)[|Sleb(value)| - 1]; last < 128 && (last >= 64 <==> value < 0)
    decreases if value < 0 then -value else value
  {
    hide Sleb, Digits, NumberLength;
    SlebStep(value);
    if SlebEnds(value) {
      LastByte(value % 128, suffix);
      assert Pow128(1) == 128 * Pow128(0);
    } else {
      var q, rest := value / 128, Sleb(value / 128);
      SlebRoundTrip(q, suffix);
      assert Sleb(value) + suffix == [128 + value % 128] + (rest + suffix);
      ByteInFront(128 + value % 128, rest + suffix);
      GroupInFront(value, Pow128(|rest|));
      assert Sleb(value)[|Sleb(value)| - 1] == rest[|rest| - 1];
    }
  }

  lemma SlebStep(rest: int)
    ensures Sleb(rest) == if SlebEnds(rest) then [rest % 128] else [128 + rest % 128] + Sleb(rest / 128)
  {
  }

  lemma {:induction false} SlebLength(value: int, n: nat)
    requires n > 0 && -64 * Pow128(n - 1) <= value < 64 * Pow128(n - 1)
    ensures |Sleb(value)| <= n
    decreases n
  {
    if n == 1 {
      assert SlebEnds(value);
    } else if !SlebEnds(value) {
      SlebLength(value / 128, n - 1);
    }
  }

  // ---- The codec on a buffer ----

  /** The bytes that fit. */
  function Fitting(s: seq<Byte>, room: nat): seq<Byte> { if |s| <= room then s else s[..room] }

  /** The buffer after `done` was written at the cursor. */
  function Written(before: seq<Byte>, cursor: nat, done: seq<Byte>): seq<Byte>
    requires cursor + |done| <= |before|
  {
    before[..cursor] + done + before[cursor + |done|..]
  }

  lemma WriteByte(before: seq<Byte>, cursor: nat, done: seq<Byte>, b: Byte)
    requires cursor + |done| < |before|
    ensures |Written(before, cursor, done)| == |before|
    ensures Written(before, cursor, done)[cursor + |done| := b] == Written(before, cursor, done + [b])
  {
  }

  lemma NothingWritten(before: seq<Byte>, cursor: nat)
    requires cursor <= |before|
    ensures Written(before, cursor, []) == before
  {
  }

  lemma Longer(all: seq<Byte>, done: seq<Byte>, more: seq<Byte>, room: nat)
    requires all == done + more && more != [] && |done| == room
    ensures Fitting(all, room) == done
  {
  }

  method EncodeULEB(value: Uint64, buffer: array<Byte>, cursor: nat, end: nat) returns (cursor': nat)
    requires cursor <= end <= buffer.Length
    modifies buffer
    ensures cursor' == cursor + |Fitting(Uleb(value), end - cursor)|
    ensures buffer[..] == Written(old(buffer[..]), cursor, Fitting(Uleb(value), end - cursor))
  {
    hide Uleb, Written;
    cursor' := cursor;
    var rest: nat := value;
    ghost var done: seq<Byte> := [];
    NothingWritten(buffer[..], cursor);
    while cursor' < end
      invariant cursor' == cursor + |done| <= end
      invariant Uleb(value) == done + Uleb(rest)
      invariant buffer[..] == Written(old(buffer[..]), cursor, done)
    {
      var b := rest % 128;
      UlebStep(rest);
      rest := rest / 128;
      if rest == 0 {
        assert Uleb(value) == done + [b];
        WriteByte(old(buffer[..]), cursor, done, b);
        buffer[cursor'] := b;
        cursor' := cursor' + 1;
        return;
      }
      WriteByte(old(buffer[..]), cursor, done, 128 + b);
      buffer[cursor'] := 128 + b;
      cursor' := cursor' + 1;
      assert done + ([128 + b] + Uleb(rest)) == (done + [128 + b]) + Uleb(rest);
      done := done + [128 + b];
    }
    Longer(Uleb(value), done, Uleb(rest), end - cursor);
  }

  method EncodeSLEB(value: Int64, buffer: array<Byte>, cursor: nat, end: nat) returns (cursor': nat)
    requires cursor <= end <= buffer.Length
    modifies buffer
    ensures cursor' == cursor + |Fitting(Sleb(value), end - cursor)|
    ensures buffer[..] == Written(old(buffer[..]), cursor, Fitting(Sleb(value), end - cursor))
  {
    hide Sleb, Written;
    cursor' := cursor;
    var rest: int := value;
    ghost var done: seq<Byte> := [];
    NothingWritten(buffer[..], cursor);
    while cursor' < end
      invariant cursor' == cursor + |done| <= end
      invariant Sleb(value) == done + Sleb(rest)
      invariant buffer[..] == Written(old(buffer[..]), cursor, done)
    {
      var b := rest % 128;
      var sign := b >= 64;
      SlebStep(rest);
      rest := rest / 128;
      if (rest == 0 && !sign) || (rest == -1 && sign) {
        WriteByte(old(buffer[..]), cursor, done, b);
        buffer[cursor'] := b;
        cursor' := cursor' + 1;
        return;
      }
      WriteByte(old(buffer[..]), cursor, done, 128 + b);
      buffer[cursor'] := 128 + b;
      cursor' := cursor' + 1;
      assert done + ([128 + b] + Sleb(rest)) == (done + [128 + b]) + Sleb(rest);
      done := done + [128 + b];
    }
    Longer(Sleb(value), done, Sleb(rest), end - cursor);
  }

  // ---- Decoding a buffer ----

  /** The first number ends within ten bytes, or at the end of the buffer: beyond that the shift of the
      decoder is not defined. */
  predicate Decodable(s: seq<Byte>) { NumberLength(s) <= 10 }

  /** `result |= (b & 0x7f) << shift`: the new bits are above those of the result. */
  function OrShifted(result: Uint64, b: Byte, count: nat): Uint64 {
    (result + (b % 128) * Pow128(count)) % TWO_64
  }

  lemma OrDigits(s: seq<Byte>, n: nat)
    requires n < |s|
    ensures OrShifted(Digits(s, n) % TWO_64, s[n], n) == Digits(s, n + 1) % TWO_64
  {
    hide Pow128;
    ModAdd(Digits(s, n), (s[n] % 128) * Pow128(n));
  }

  lemma ModAdd(x: nat, y: nat)
    ensures (x % TWO_64 + y) % TWO_64 == (x + y) % TWO_64
  {
  }

  /** Where a number ends, seen from one of its bytes. */
  lemma {:induction false} LengthAt(s: seq<Byte>, n: nat)
    requires n < NumberLength(s)
    ensures s[n] < 128 || n + 1 == |s| ==> n + 1 == NumberLength(s)
    ensures s[n] >= 128 && n + 1 < |s| ==> n + 1 < NumberLength(s)
  {
    if n > 0 {
      LengthAt(s[1..], n - 1);
    }
  }

  /** The common loop of both decoders: the digits of the first number, its length and last byte. */
  method ReadDigits(buffer: array<Byte>, cursor: nat, end: nat) returns (result: Uint64, cursor': nat, last: Byte)
    requires cursor < end <= buffer.Length && Decodable(buffer[cursor..end])
    ensures var s := buffer[cursor..end]; var n := NumberLength(s);
            && 0 < n <= 10 && cursor' == cursor + n
            && result == Digits(s, n) % TWO_64 && last == s[n - 1]
  {
    hide Digits, NumberLength, OrShifted;
    ghost var s := buffer[cursor..end];
    result, cursor', last := 0, cursor, 128;
    var n: nat := 0;
    NoDigits(s);
    while last >= 128 && cursor' < end
      invariant cursor' == cursor + n && n <= NumberLength(s) && result == Digits(s, n) % TWO_64
      invariant n > 0 ==> last == s[n - 1]
      invariant n == 0 ==> last == 128
      invariant n == NumberLength(s) <==> n > 0 && (last < 128 || cursor' == end)
      decreases end - cursor'
    {
      LengthAt(s, n);
      OrDigits(s, n);
      last := buffer[cursor'];
      result := OrShifted(result, last, n);
      n := n + 1;
      cursor' := cursor' + 1;
    }
  }

  lemma NoDigits(s: seq<Byte>)
    ensures Digits(s, 0) == 0 && (s != [] ==> NumberLength(s) > 0)
  {
  }

  method DecodeULEB(buffer: array<Byte>, cursor: nat, end: nat) returns (result: Uint64, cursor': nat)
    requires cursor <= end <= buffer.Length && Decodable(buffer[cursor..end])
    ensures var s := buffer[cursor..end];
            cursor' == cursor + NumberLength(s) && result == Digits(s, NumberLength(s)) % TWO_64
  {
    if cursor >= end { return 0, cursor; }
    var last;
    result, cursor', last := ReadDigits(buffer, cursor, end);
  }

  /** What the decoder makes of the digits of a signed number: sign extension below 64 bits. */
  function SignExtended(digits: nat, n: nat, last: Byte): Int64
    requires digits < Pow128(n) && n <= 10
  {
    Pow128Values();
    var word := digits % TWO_64;
    AsInt64(if n < 10 && last % 128 >= 64 then (word + TWO_64 - Pow128(n)) % TWO_64 else word)
  }

  method DecodeSLEB(buffer: array<Byte>, cursor: nat, end: nat) returns (result: Int64, cursor': nat)
    requires cursor <= end <= buffer.Length && Decodable(buffer[cursor..end])
    ensures var s := buffer[cursor..end]; var n := NumberLength(s);
            && cursor' == cursor + n
            && Digits(s, n) < Pow128(n)
            && result == if n == 0 then 0 else SignExtended(Digits(s, n), n, s[n - 1])
  {
    if cursor >= end { return 0, cursor; }
    hide Digits, NumberLength, Pow128;
    var word, last;
    word, cursor', last := ReadDigits(buffer, cursor, end);
    ghost var s := buffer[cursor..end];
    ghost var n := NumberLength(s);
    DigitsBound(s, n);
    if cursor' - cursor < 10 && last % 128 >= 64 {
      word := (word + TWO_64 - Pow128(cursor' - cursor)) % TWO_64;
    }
    result := AsInt64(word);
  }

  // ---- Round trips ----

  /** Every unsigned 64-bit number survives encoding and decoding, whatever follows it, in at most ten bytes. */
  lemma UnsignedRoundTrip(value: Uint64, suffix: seq<Byte>)
    ensures var s := Uleb(value) + suffix; var n := NumberLength(s);
            n == |Uleb(value)| <= 10 && Digits(s, n) % TWO_64 == value
  {
    Pow128Values();
    UlebRoundTrip(value, suffix);
    UlebLength(value, 10);
  }

  /** ... and so does every signed one. */
  lemma SignedRoundTrip(value: Int64, suffix: seq<Byte>)
    ensures var s := Sleb(value) + suffix; var n := NumberLength(s);
            && n == |Sleb(value)| <= 10 && 0 < n && Digits(s, n) < Pow128(n)
            && SignExtended(Digits(s, n), n, s[n - 1]) == value
  {
    Pow128Values();
    SlebRoundTrip(value, suffix);
    SlebLength(value, 10);
    var s := Sleb(value) + suffix;
    var n := |Sleb(value)|;
    DigitsBound(s, n);
    assert s[n - 1] == Sleb(value)[n - 1];
    SignRestored(value, n, s[n - 1]);
  }

  lemma SignRestored(value: Int64, n: nat, last: Byte)
    requires 0 < n <= 10 && last < 128 && (last >= 64 <==> value < 0)
    requires 0 <= Wrapped(value, n) < Pow128(n)
    ensures SignExtended(Wrapped(value, n), n, last) == value
  {
    hide Pow128, SignExtended;
    if value >= 0 {
      PositiveRestored(value, n, last);
    } else if n < 10 {
      PowBelow(n);
      NegativeRestored(value, n, last);
    } else {
      LongRestored(value, last);
    }
  }

  lemma PositiveRestored(value: Int64, n: nat, last: Byte)
    requires 0 <= value < Pow128(n) && n <= 10 && last < 64
    ensures SignExtended(value, n, last) == value
  {
    hide Pow128;
  }

  lemma NegativeRestored(value: Int64, n: nat, last: Byte)
    requires value < 0 <= value + Pow128(n) && n < 10 && 64 <= last < 128 && Pow128(n) <= 0x8000_0000_0000_0000
    ensures SignExtended(value + Pow128(n), n, last) == value
  {
    hide Pow128;
    WrapAround(value, Pow128(n));
  }

  lemma WrapAround(value: Int64, p: nat)
    requires value < 0 <= value + p && p <= 0x8000_0000_0000_0000
    ensures ((value + p) % TWO_64 + TWO_64 - p) % TWO_64 == value + TWO_64
  {
    assert (value + p) % TWO_64 == value + p;
  }

  lemma LongRestored(value: Int64, last: Byte)
    requires value < 0 <= value + Pow128(10)
    ensures SignExtended(value + Pow128(10), 10, last) == value
  {
    Pow128Values();
    hide Pow128;
    assert (value + 64 * TWO_64) % TWO_64 == value + TWO_64;
  }

  lemma {:induction false} PowBelow(n: nat)
    requires n < 10
    ensures Pow128(n) <= Pow128(9) && Pow128(n) <= 0x8000_0000_0000_0000
    decreases 10 - n
  {
    Pow128Values();
    if n < 9 { PowBelow(n + 1); }
  }

  // ---- Split immediates ----

  /** MergeLowHi: four low bits and the rest, shifted back as an unsigned word. */
  function MergeLowHi(low4: nat, hi: Int64): Int64
    requires low4 < 16
  {
    AsInt64(((hi % TWO_64) * 16) % TWO_64 + low4)
  }

  /** A value split into its low four bits and the rest is restored, after the rest has travelled as a
      signed LEB128 number. */
  lemma SplitRestored(value: Int64, suffix: seq<Byte>)
    ensures var s := Sleb(value / 16) + suffix; var n := NumberLength(s);
            && 0 < n <= 10 && Digits(s, n) < Pow128(n)
            && MergeLowHi(value % 16, SignExtended(Digits(s, n), n, s[n - 1])) == value
  {
    hide Pow128, Digits, NumberLength, Sleb, SignExtended;
    SignedRoundTrip(value / 16, suffix);
    Merged(value);
  }

  lemma Merged(value: Int64)
    ensures MergeLowHi(value % 16, value / 16) == value
  {
    var hi := value / 16;
    if hi >= 0 {
      assert ((hi % TWO_64) * 16) % TWO_64 == hi * 16;
    } else {
      assert (hi % TWO_64) * 16 == hi * 16 + 16 * TWO_64;
      assert ((hi % TWO_64) * 16) % TWO_64 == hi * 16 + TWO_64;
    }
  }

  // ---- Call argument lists ----

  /** ReadCallArgs reads locations plus one until a zero. */
  function ArgList(locations: seq<nat>): seq<Byte> {
    if locations == [] then Uleb(0) else Uleb(locations[0] + 1) + ArgList(locations[1..])
  }

  /** One byte for the location plus one, and a zero at the end. */
  lemma ArgListBytes(l: nat)
    requires l < 127
    ensures ArgList([]) == [0] && ArgList([l]) == [l + 1, 0]
  {
    assert [l][1..] == [];
  }

  class IsaParser {
    const buffer: array<Byte>
    const end: nat
    var cursor: nat
    var callArgs: seq<int>

    ghost predicate Valid()
      reads this
    {
      cursor <= end <= buffer.Length
    }

    constructor (buffer: array<Byte>, cursor: nat, end: nat)
      requires cursor <= end <= buffer.Length
      ensures Valid() && this.buffer == buffer && this.cursor == cursor && this.end == end
    {
      this.buffer, this.cursor, this.end, callArgs := buffer, cursor, end, [];
    }

    method ReadULEB() returns (v: Uint64)
      requires Valid() && Decodable(buffer[cursor..end])
      modifies this`cursor
      ensures Valid()
      ensures var s := old(buffer[cursor..end]);
              cursor == old(cursor) + NumberLength(s) && v == Digits(s, NumberLength(s)) % TWO_64
    {
      v, cursor := DecodeULEB(buffer, cursor, end);
    }

    /** The list written as biased, zero-terminated unsigned numbers is read back, and the cursor stops
        right behind it. */
    method ReadCallArgs(ghost locations: seq<nat>, ghost suffix: seq<Byte>)
      requires Valid() && buffer[cursor..end] == ArgList(locations) + suffix
      requires forall i :: 0 <= i < |locations| ==> locations[i] < 0x7FFF_FFFF
      modifies this`cursor, this`callArgs
      ensures Valid() && callArgs == locations && buffer[cursor..end] == suffix
    {
      hide Uleb, Digits, NumberLength, ArgList;
      callArgs := [];
      ghost var k := 0;
      var v: Uint64 := 1;
      while v != 0
        invariant Valid() && k <= |locations| && callArgs == locations[..k]
        invariant v != 0 ==> buffer[cursor..end] == ArgList(locations[k..]) + suffix
        invariant v == 0 ==> k == |locations| && buffer[cursor..end] == suffix
        decreases |locations| - k, v
      {
        ghost var s := buffer[cursor..end];
        ArgListStep(locations, k, suffix, s);
        v := ReadULEB();
        if v != 0 {
          callArgs := callArgs + [v - 1];
          k := k + 1;
        }
      }
    }
  }

  lemma ArgListStep(locations: seq<nat>, k: nat, suffix: seq<Byte>, s: seq<Byte>)
    requires k <= |locations| && s == ArgList(locations[k..]) + suffix
    requires forall i :: 0 <= i < |locations| ==> locations[i] < 0x7FFF_FFFF
    ensures Decodable(s)
    ensures var n := NumberLength(s);
            if k == |locations| then Digits(s, n) % TWO_64 == 0 && s[n..] == suffix
            else && Digits(s, n) % TWO_64 == locations[k] + 1 && s[n..] == ArgList(locations[k + 1..]) + suffix
                 && locations[..k + 1] == locations[..k] + [locations[k]]
  {
    hide Uleb, Digits, NumberLength;
    if k == |locations| {
      UnsignedRoundTrip(0, suffix);
    } else {
      var tail := ArgList(locations[k + 1..]) + suffix;
      assert locations[k..][1..] == locations[k + 1..];
      assert s == Uleb(locations[k] + 1) + tail;
      UnsignedRoundTrip(locations[k] + 1, tail);
    }
  }
}
