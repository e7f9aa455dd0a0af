/** The encoder in glite-wmp-job-utilities.cpp. */
module Base64 {

  type Byte = x: nat | x < 256
  type Sextet = x: nat | x < 64

  const UPPER: string := "ABCDEFGHIJKLMNOPQRSTUVWXYZ"
  const LOWER: string := "abcdefghijklmnopqrstuvwxyz"
  const DIGITS: string := "0123456789"
  const ALPHABET: string := UPPER + LOWER + DIGITS + "-_"

  // -------------------------------------------------------- the encoding and its inverse

  /** The four groups of six bits in three bytes. */
  function First(a: Byte): Sextet {
    a / 4
  }

  function Second(a: Byte, b: Byte): Sextet {
    a % 4 * 16 + b / 16
  }

  function Third(b: Byte, c: Byte): Sextet {
    b % 16 * 4 + c / 64
  }

  function Fourth(c: Byte): Sextet {
    c % 64
  }

  /** Read one after the other, the groups are the bits of the three bytes. */
  lemma SameBits(a: Byte, b: Byte, c: Byte)
    ensures ((First(a) * 64 + Second(a, b)) * 64 + Third(b, c)) * 64 + Fourth(c) == (a * 256 + b) * 256 + c
  {
  }

  /** The groups of the input; the bits missing at the end are zeros. */
  function Sextets(s: seq<Byte>): (r: seq<Sextet>)
    ensures |r| == (8 * |s| + 5) / 6
  {
    if |s| == 0 then []
    else if |s| == 1 then [First(s[0]), Second(s[0], 0)]
    else if |s| == 2 then [First(s[0]), Second(s[0], s[1]), Third(s[1], 0)]
    else [First(s[0]), Second(s[0], s[1]), Third(s[1], s[2]), Fourth(s[2])] + Sextets(s[3..])
  }

  function FirstByte(p: Sextet, q: Sextet): Byte {
    var (v: nat, w: nat) := (p, q);
    v * 4 + w / 16
  }

  function SecondByte(q: Sextet, r: Sextet): Byte {
    var (v: nat, w: nat) := (q, r);
    v % 16 * 16 + w / 4
  }

  function ThirdByte(r: Sextet, t: Sextet): Byte {
    var (v: nat, w: nat) := (r, t);
    v % 4 * 64 + w
  }

  function Bytes(t: seq<Sextet>): seq<Byte> {
    if |t| < 2 then []
    else if |t| == 2 then [FirstByte(t[0], t[1])]
    else if |t| == 3 then [FirstByte(t[0], t[1]), SecondByte(t[1], t[2])]
    else [FirstByte(t[0], t[1]), SecondByte(t[1], t[2]), ThirdByte(t[2], t[3])] + Bytes(t[4..])
  }

  lemma BytesBack(a: Byte, b: Byte, c: Byte)
    ensures FirstByte(First(a), Second(a, b)) == a && SecondByte(Second(a, b), Third(b, c)) == b
    ensures ThirdByte(Third(b, c), Fourth(c)) == c
  {
  }

  lemma {:induction false} BytesOfSextets(s: seq<Byte>)
    ensures Bytes(Sextets(s)) == s
  {
    if |s| == 1 {
      BytesBack(s[0], 0, 0);
    } else if |s| == 2 {
      BytesBack(s[0], s[1], 0);
    } else if |s| >= 3 {
      BytesBack(s[0], s[1], s[2]);
      BytesOfSextets(s[3..]);
      assert Sextets(s)[4..] == Sextets(s[3..]);
      assert s == [s[0], s[1], s[2]] + s[3..];
    }
  }

  /** Four groups and three bytes are the same number, digit for digit in the same order. */
  ghost predicate SameNumber(p: int, q: int, r: int, t: int, a: int, b: int, c: int) {
    ((p * 64 + q) * 64 + r) * 64 + t == (a * 256 + b) * 256 + c
  }

  /** Every three bytes become four groups that are the same number. */
  lemma ThreeBytes(a: Byte, b: Byte, c: Byte, rest: seq<Byte>) returns (p: Sextet, q: Sextet, r: Sextet, t: Sextet)
    ensures Sextets([a, b, c] + rest) == [p, q, r, t] + Sextets(rest)
    ensures SameNumber(p, q, r, t, a, b, c)
  {
    p, q, r, t := First(a), Second(a, b), Third(b, c), Fourth(c);
    SameBits(a, b, c);
    assert ([a, b, c] + rest)[3..] == rest;
  }

  /** One or two bytes at the end become two or three groups, with zeros behind the last bit. */
  lemma LastBytes(a: Byte, b: Byte) returns (p: Sextet, q: Sextet, x: Sextet, y: Sextet, z: Sextet)
    ensures Sextets([]) == [] && Sextets([a]) == [p, q] && Sextets([a, b]) == [x, y, z]
    ensures SameNumber(p, q, 0, 0, a, 0, 0) && SameNumber(x, y, z, 0, a, b, 0)
  {
    p, q, x, y, z := First(a), Second(a, 0), First(a), Second(a, b), Third(b, 0);
    SameBits(a, 0, 0);
    SameBits(a, b, 0);
  }

  // ----------------------------------------------------------------------------- the letters

  function Letter(v: Sextet): char {
    ALPHABET[v]
  }

  /** The alphabet of section 5 of RFC 4648. */
  lemma LetterIs(v: Sextet)
    ensures 0 <= v < 26 ==> Letter(v) as int == 'A' as int + v
    ensures 26 <= v < 52 ==> Letter(v) as int == 'a' as int + (v - 26)
    ensures 52 <= v < 62 ==> Letter(v) as int == '0' as int + (v - 52)
    ensures v == 62 ==> Letter(v) == '-'
    ensures v == 63 ==> Letter(v) == '_'
  {
    IndexOfLetter(v);
  }

  function Letters(t: seq<Sextet>): (r: string)
    ensures |r| == |t| && forall i :: 0 <= i < |t| ==> r[i] == Letter(t[i])
  {
    seq(|t|, i requires 0 <= i < |t| => Letter(t[i]))
  }

  lemma LettersAppend(s: seq<Sextet>, t: seq<Sextet>)
    ensures Letters(s + t) == Letters(s) + Letters(t)
  {
  }

  function Encoded(s: seq<Byte>): (r: string)
    ensures |r| == (8 * |s| + 5) / 6 + 1
  {
    Letters(Sextets(s)) + "="
  }

  function Index(c: char): Sextet {
    if 'A' <= c <= 'Z' then c as int - 'A' as int
    else if 'a' <= c <= 'z' then c as int - 'a' as int + 26
    else if '0' <= c <= '9' then c as int - '0' as int + 52
    else if c == '-' then 62 else 63
  }

  function Decoded(text: string): seq<Byte> {
    if text == "" then [] else Bytes(seq(|text| - 1, i requires 0 <= i < |text| - 1 => Index(text[i])))
  }

  lemma IndexOfUpper(i: nat)
    requires i < 26
    ensures Index(UPPER[i]) == i
  {
  }

  lemma IndexOfLower(i: nat)
    requires i < 26
    ensures Index(LOWER[i]) == i + 26
  {
  }

  lemma IndexOfDigit(i: nat)
    requires i < 10
    ensures Index(DIGITS[i]) == i + 52
  {
  }

  lemma IndexOfLetter(v: Sextet)
    ensures Index(Letter(v)) == v
  {
    if v < 26 {
      IndexOfUpper(v);
    } else if v < 52 {
      IndexOfLower(v - 26);
    } else if v < 62 {
      IndexOfDigit(v - 52);
    }
  }

  /** The text is the letters of the groups and one "=". */
  lemma EncodedIs(s: seq<Byte>, i: nat)
    requires i < |Encoded(s)|
    ensures i + 1 < |Encoded(s)| ==>
              var v: Sextet := Sextets(s)[i];
              if v < 26 then Encoded(s)[i] as int == 'A' as int + v
              else if v < 52 then Encoded(s)[i] as int == 'a' as int + (v - 26)
              else if v < 62 then Encoded(s)[i] as int == '0' as int + (v - 52)
              else Encoded(s)[i] == if v == 62 then '-' else '_'
    ensures i + 1 == |Encoded(s)| ==> Encoded(s)[i] == '='
  {
    if i + 1 < |Encoded(s)| {
      LetterIs(Sextets(s)[i]);
    }
  }

  /** Decoding gives the input back. */
  lemma DecodedOfEncoded(s: seq<Byte>)
    ensures Decoded(Encoded(s)) == s
  {
    var t, text := Sextets(s), Encoded(s);
    var u := seq(|text| - 1, i requires 0 <= i < |text| - 1 => Index(text[i]));
    forall i | 0 <= i < |t| ensures u[i] == t[i] {
      IndexOfLetter(t[i]);
    }
    assert u == t;
    BytesOfSextets(s);
  }

  /** Different inputs are encoded differently. */
  lemma Injective(s: seq<Byte>, t: seq<Byte>)
    ensures Encoded(s) == Encoded(t) <==> s == t
  {
    DecodedOfEncoded(s);
    DecodedOfEncoded(t);
  }

  // -------------------------------------------------------------------------- the accumulator

  const WORD: nat := 0x1_0000_0000

  /** The groups still to come when `shift` bits of the value `left` are waiting. */
  function Stream(left: nat, shift: nat, s: seq<Byte>): seq<Sextet>
    requires (shift == 0 && left == 0) || (shift == 2 && left < 4) || (shift == 4 && left < 16)
    decreases s
  {
    if s == [] then
      if shift == 0 then [] else if shift == 2 then [left * 16] else [left * 4]
    else if shift == 0 then [s[0] / 4] + Stream(s[0] % 4, 2, s[1..])
    else if shift == 2 then [left * 16 + s[0] / 16] + Stream(s[0] % 16, 4, s[1..])
    else [left * 4 + s[0] / 64, s[0] % 64] + Stream(0, 0, s[1..])
  }

  lemma {:induction false} StreamIsSextets(s: seq<Byte>)
    ensures Stream(0, 0, s) == Sextets(s)
  {
    if |s| >= 3 {
      StreamIsSextets(s[3..]);
      assert s[1..][1..][1..] == s[3..];
      assert Stream(s[0] % 4, 2, s[1..]) == [s[0] % 4 * 16 + s[1] / 16] + Stream(s[1] % 16, 4, s[1..][1..]);
    } else if |s| == 2 {
      assert Stream(s[0] % 4, 2, s[1..]) == [s[0] % 4 * 16 + s[1] / 16] + Stream(s[1] % 16, 4, []);
    }
  }

  /** bits >> n */
  function ShiftRight(bits: nat, n: nat): nat {
    if n == 0 then bits else ShiftRight(bits, n - 1) / 2
  }

  /** bits << n, in 32 bits */
  function ShiftLeft(bits: nat, n: nat): nat {
    if n == 0 then bits else ShiftLeft(bits, n - 1) * 2 % WORD
  }

  lemma RightShifts(bits: nat)
    ensures ShiftRight(bits, 2) == bits / 4 && ShiftRight(bits, 4) == bits / 16 && ShiftRight(bits, 6) == bits / 64
  {
    assert ShiftRight(bits, 1) == bits / 2;
    assert ShiftRight(bits, 2) == bits / 4;
    assert ShiftRight(bits, 3) == bits / 8;
    assert ShiftRight(bits, 4) == bits / 16;
    assert ShiftRight(bits, 5) == bits / 32;
  }

  lemma InWord(y: nat, q: int, r: int)
    requires y == q * WORD + r && 0 <= r < WORD
    ensures y % WORD == r
  {
  }

  lemma Doubled(x: nat)
    ensures x % WORD * 2 % WORD == x * 2 % WORD
  {
    var y, q := x % WORD, x / WORD;
    if y * 2 < WORD {
      InWord(x * 2, q * 2, y * 2);
    } else {
      InWord(x * 2, q * 2 + 1, y * 2 - WORD);
      InWord(y * 2, 1, y * 2 - WORD);
    }
  }

  lemma LeftShifts(bits: nat)
    ensures ShiftLeft(bits, 2) == bits * 4 % WORD && ShiftLeft(bits, 4) == bits * 16 % WORD
    ensures ShiftLeft(bits, 8) == bits * 256 % WORD
  {
    assert ShiftLeft(bits, 1) == bits * 2 % WORD;
    Doubled(bits * 2);
    Doubled(bits * 4);
    assert ShiftLeft(bits, 3) == bits * 8 % WORD;
    Doubled(bits * 8);
    assert ShiftLeft(bits, 4) == bits * 16 % WORD;
    Doubled(bits * 16);
    assert ShiftLeft(bits, 5) == bits * 32 % WORD;
    Doubled(bits * 32);
    assert ShiftLeft(bits, 6) == bits * 64 % WORD;
    Doubled(bits * 64);
    assert ShiftLeft(bits, 7) == bits * 128 % WORD;
    Doubled(bits * 128);
  }

  /** What the inner loop writes: the groups of six among the last `shift` bits. */
  function Segments(bits: nat, shift: nat): seq<Sextet> {
    if shift < 6 then [] else [ShiftRight(bits, shift - 6) % 64] + Segments(bits, shift - 6)
  }

  /** bits << 8 | byte: the byte fills the zeros shifted in. */
  function ShiftIn(bits: nat, byte: Byte): nat {
    ShiftLeft(bits, 8) + byte
  }

  predicate IsRest(shift: nat) {
    shift == 0 || shift == 2 || shift == 4
  }

  function Waiting(bits: nat, shift: nat): nat
    requires IsRest(shift)
  {
    if shift == 0 then 0 else if shift == 2 then bits % 4 else bits % 16
  }

  /** (shift + 8) % 6 */
  function RestAfter(shift: nat): (r: nat)
    requires IsRest(shift)
    ensures IsRest(r) && r == (shift + 8) % 6
  {
    if shift == 0 then 2 else if shift == 2 then 4 else 0
  }

  /** The groups still to come for an accumulator and the bytes not yet shifted in. */
  function ToCome(bits: nat, shift: nat, s: seq<Byte>): seq<Sextet>
    requires IsRest(shift)
  {
    Stream(Waiting(bits, shift), shift, s)
  }

  /** Of the bits shifted in, the last twelve are those that matter; none of them is lost. */
  lemma LastBits(bits: nat, byte: Byte)
    ensures
      var after := ShiftIn(bits, byte);
      && after / 4 % 64 == byte / 4 && after % 4 == byte % 4
      && after / 16 % 64 == bits % 4 * 16 + byte / 16 && after % 16 == byte % 16
      && after / 64 % 64 == bits % 16 * 4 + byte / 64 && after % 64 == byte % 64
  {
    LeftShifts(bits);
    var after, q := ShiftIn(bits, byte), bits * 256 / WORD;
    LastEight(after, bits - q * 0x100_0000, byte);
    LastTen(after, bits / 4 - q * 0x40_0000, bits % 4, byte);
    LastTwelve(after, bits / 16 - q * 0x10_0000, bits % 16, byte);
  }

  lemma LastEight(after: nat, z: int, byte: Byte)
    requires after == 256 * z + byte
    ensures after / 4 % 64 == byte / 4 && after % 4 == byte % 4
  {
    assert after / 4 == 64 * z + byte / 4;
  }

  lemma LastTen(after: nat, z: int, left: nat, byte: Byte)
    requires after == 1024 * z + 256 * left + byte && left < 4
    ensures after / 16 % 64 == left * 16 + byte / 16 && after % 16 == byte % 16
  {
    assert after / 16 == 64 * z + left * 16 + byte / 16;
  }

  lemma LastTwelve(after: nat, z: int, left: nat, byte: Byte)
    requires after == 4096 * z + 256 * left + byte && left < 16
    ensures after / 64 % 64 == left * 4 + byte / 64 && after % 64 == byte % 64
  {
    assert after / 64 == 64 * z + left * 4 + byte / 64;
  }

  lemma Feed(bits: nat, shift: nat, s: seq<Byte>)
    requires IsRest(shift) && s != []
    ensures
      var after, rest := ShiftIn(bits, s[0]), RestAfter(shift);
      ToCome(bits, shift, s) == Segments(after, shift + 8) + ToCome(after, rest, s[1..])
  {
    var after := ShiftIn(bits, s[0]);
    LastBits(bits, s[0]);
    SomeSegments(after);
    FeedBits(bits, shift, s, after);
  }

  lemma FeedBits(bits: nat, shift: nat, s: seq<Byte>, after: nat)
    requires IsRest(shift) && s != []
    requires after / 4 % 64 == s[0] / 4 && after % 4 == s[0] % 4
    requires after / 16 % 64 == bits % 4 * 16 + s[0] / 16 && after % 16 == s[0] % 16
    requires after / 64 % 64 == bits % 16 * 4 + s[0] / 64 && after % 64 == s[0] % 64
    ensures ToCome(bits, shift, s) ==
              if shift == 0 then [after / 4 % 64] + ToCome(after, 2, s[1..])
              else if shift == 2 then [after / 16 % 64] + ToCome(after, 4, s[1..])
              else [after / 64 % 64, after % 64] + ToCome(after, 0, s[1..])
  {
  }

  lemma SomeSegments(bits: nat)
    ensures Segments(bits, 6) == [bits % 64] && Segments(bits, 8) == [bits / 4 % 64]
    ensures Segments(bits, 10) == [bits / 16 % 64] && Segments(bits, 12) == [bits / 64 % 64, bits % 64]
  {
    RightShifts(bits);
  }

  lemma Flush(bits: nat, shift: nat)
    requires shift == 2 || shift == 4
    ensures ToCome(bits, shift, []) == Segments(ShiftLeft(bits, 6 - shift), 6)
  {
    LeftShifts(bits);
    SomeSegments(ShiftLeft(bits, 6 - shift));
    Overflow(bits, 16);
    Overflow(bits, 4);
  }

  lemma Overflow(bits: nat, factor: nat)
    requires factor == 4 || factor == 16
    ensures bits * factor % WORD % 64 == bits % (64 / factor) * factor
  {
    var q := bits * factor / WORD;
    if factor == 4 {
      LastSix(bits * 4 % WORD, bits / 16 - q * 0x400_0000, bits % 16 * 4);
    } else {
      LastSix(bits * 16 % WORD, bits / 4 - q * 0x400_0000, bits % 4 * 16);
    }
  }

  lemma LastSix(y: nat, z: int, r: nat)
    requires y == 64 * z + r && r < 64
    ensures y % 64 == r
  {
  }

  /** The inner loop. */
  method EmitSegments(out: array<char>, size: nat, bits: nat, shift: nat) returns (newSize: nat, newShift: nat)
    requires size + shift / 6 <= out.Length
    modifies out
    ensures newSize == size + shift / 6 && newShift == shift % 6
    ensures out[..newSize] == old(out[..size]) + Letters(Segments(bits, shift))
  {
    newSize, newShift := size, shift;
    ghost var all, written: seq<Sextet> := Segments(bits, shift), [];
    while newShift >= 6
      invariant newSize + newShift / 6 == size + shift / 6 && newShift % 6 == shift % 6
      invariant written + Segments(bits, newShift) == all
      invariant out[..newSize] == old(out[..size]) + Letters(written)
    {
      newShift := newShift - 6;
      var v := ShiftRight(bits, newShift) % 64;
      out[newSize] := Letter(v);
      newSize := newSize + 1;
      Associative(written, [v], Segments(bits, newShift));
      LettersAppend(written, [v]);
      written := written + [v];
    }
    assert all == written;
  }

  /** `done` has been written, and `todo` is still to come. */
  ghost predicate Split(enc: seq<Byte>, bits: nat, shift: nat, next: nat, done: seq<Sextet>, todo: seq<Sextet>) {
    && IsRest(shift) && next <= |enc|
    && todo == ToCome(bits, shift, enc[next..])
    && done + todo == Sextets(enc)
  }

  lemma FeedSplit(enc: seq<Byte>, bits: nat, shift: nat, next: nat, done: seq<Sextet>, todo: seq<Sextet>)
    requires Split(enc, bits, shift, next, done, todo) && next < |enc|
    ensures
      var after, rest := ShiftIn(bits, enc[next]), RestAfter(shift);
      Split(enc, after, rest, next + 1, done + Segments(after, shift + 8), ToCome(after, rest, enc[next + 1..]))
  {
    Feed(bits, shift, enc[next..]);
    assert enc[next..][1..] == enc[next + 1..];
    var after, rest := ShiftIn(bits, enc[next]), RestAfter(shift);
    Associative(done, Segments(after, shift + 8), ToCome(after, rest, enc[next + 1..]));
  }

  lemma FlushSplit(enc: seq<Byte>, bits: nat, shift: nat, next: nat, done: seq<Sextet>, todo: seq<Sextet>)
    requires Split(enc, bits, shift, next, done, todo) && next == |enc| && shift > 0
    ensures var after := ShiftLeft(bits, 6 - shift); Split(enc, after, 0, next, done + Segments(after, 6), [])
  {
    Flush(bits, shift);
    assert done + Segments(ShiftLeft(bits, 6 - shift), 6) + [] == done + todo;
  }

  lemma Associative(a: seq<Sextet>, b: seq<Sextet>, c: seq<Sextet>)
    ensures a + (b + c) == a + b + c
  {
  }

  /** The next byte is shifted in, or the last bits are filled up to six. */
  method Refill(bits: nat, shift: nat, enc: seq<Byte>, next: nat, ghost done: seq<Sextet>, ghost todo: seq<Sextet>)
    returns (newBits: nat, newShift: nat, newNext: nat, ghost newTodo: seq<Sextet>)
    requires Split(enc, bits, shift, next, done, todo) && (next < |enc| || shift > 0)
    ensures if next < |enc| then newNext == next + 1 && newShift == shift + 8 else newNext == next && newShift == 6
    ensures Split(enc, newBits, newShift % 6, newNext, done + Segments(newBits, newShift), newTodo)
  {
    if next < |enc| {
      FeedSplit(enc, bits, shift, next, done, todo);
      newBits, newShift, newNext := ShiftIn(bits, enc[next]), shift + 8, next + 1;
      newTodo := ToCome(newBits, newShift % 6, enc[newNext..]);
    } else {
      FlushSplit(enc, bits, shift, next, done, todo);
      newBits, newShift, newNext, newTodo := ShiftLeft(bits, 6 - shift), 6, next, [];
    }
  }

  /** One turn of the outer loop. */
  method EncodeNext(enc: seq<Byte>, out: array<char>, size: nat, bits: nat, shift: nat, next: nat,
                    ghost done: seq<Sextet>, ghost todo: seq<Sextet>)
    returns (newSize: nat, newBits: nat, newShift: nat, newNext: nat,
             ghost newDone: seq<Sextet>, ghost newTodo: seq<Sextet>)
    requires Split(enc, bits, shift, next, done, todo) && (next < |enc| || shift > 0)
    requires size + 2 <= out.Length && out[..size] == Letters(done)
    modifies out
    ensures Split(enc, newBits, newShift, newNext, newDone, newTodo)
    ensures newSize <= size + 2 && out[..newSize] == Letters(newDone)
    ensures newNext == next + 1 || (newNext == next == |enc| && newShift == 0)
  {
    newBits, newShift, newNext, newTodo := Refill(bits, shift, enc, next, done, todo);
    newDone := done + Segments(newBits, newShift);
    LettersAppend(done, Segments(newBits, newShift));
    newSize, newShift := EmitSegments(out, size, newBits, newShift);
  }

  /** Writes the text of `enc` to `out` and returns its length, or -1 if it is longer than
      `outMaxSize`; up to one character more than that may have been written then. */
  method Base64Encode(enc: seq<Byte>, out: array<char>, outMaxSize: int) returns (ret: int)
    requires outMaxSize < out.Length
    modifies out
    ensures ret == if |Encoded(enc)| <= outMaxSize then |Encoded(enc)| else -1
    ensures ret != -1 ==> out[..ret] == Encoded(enc)
  {
    var outSize: nat, bits: nat, shift: nat, next: nat := 0, 0, 0, 0;
    ghost var done: seq<Sextet>, todo: seq<Sextet> := [], Stream(0, 0, enc);
    StreamIsSextets(enc);
    assert enc[0..] == enc;
    while outSize < outMaxSize
      invariant Split(enc, bits, shift, next, done, todo)
      invariant outSize <= out.Length && out[..outSize] == Letters(done)
      decreases |enc| - next, shift
    {
      if next < |enc| || shift > 0 {
        outSize, bits, shift, next, done, todo := EncodeNext(enc, out, outSize, bits, shift, next, done, todo);
      } else {
        out[outSize] := '=';
        outSize := outSize + 1;
        return outSize;
      }
    }
    return -1;
  }
}
