/** Standard padded base64 (RFC 4648, section 4). */
module Base64 {
  import opened Options
  import opened Words

  const UPPER: string := "ABCDEFGHIJKLMNOPQRSTUVWXYZ"
  const LOWER: string := "abcdefghijklmnopqrstuvwxyz"
  const DECIMALS: string := "0123456789"
  const ALPHABET: string := UPPER + LOWER + DECIMALS + "+/"

  type Sextet = n: nat | n < 64

  /** A sextet's character in the alphabet. */
  function CharOf(v: Sextet): char {
    ALPHABET[v]
  }

  /** A character's sextet, if it is in the alphabet at all. */
  function ValueOf(c: char): Option<Sextet> {
    if 'A' <= c <= 'Z' then Some(c as int - 'A' as int)
    else if 'a' <= c <= 'z' then Some(c as int - 'a' as int + 26)
    else if '0' <= c <= '9' then Some(c as int - '0' as int + 52)
    else if c == '+' then Some(62)
    else if c == '/' then Some(63)
    else None
  }

  // ----- what the text and the bytes stand for -----

  /** The sextets a text carries: its characters of the alphabet, whatever lies between them. */
  function Sextets(text: string): (s: seq<Sextet>)
    ensures |s| <= |text|
  {
    if |text| == 0 then []
    else
      var v := ValueOf(text[|text| - 1]);
      Sextets(text[..|text| - 1]) + if v.Some? then [v.value] else []
  }

  /** The number a string of sextets writes, the first the most significant. */
  function Number64(s: seq<Sextet>): nat {
    if |s| == 0 then 0 else Number64(s[..|s| - 1]) * 64 + s[|s| - 1]
  }

  function Number256(b: seq<Byte>): nat {
    if |b| == 0 then 0 else Number256(b[..|b| - 1]) * 256 + b[|b| - 1]
  }

  /** How many sextets carry `n` bytes. */
  function Carriers(n: nat): nat {
    (8 * n + 5) / 6
  }

  /**
   * `text` is the padded encoding of `bytes`: a whole number of quads, the sextets that carry the bits first,
   * `=` after them, and the bits the bytes' own followed by zeros.
   */
  ghost predicate Encodes(bytes: seq<Byte>, text: string) {
    var n, k := |bytes|, Carriers(|bytes|);
    && |text| == (n + 2) / 3 * 4
    && (forall j :: 0 <= j < k ==> ValueOf(text[j]).Some?)
    && (forall j :: k <= j < |text| ==> text[j] == '=')
    && |Sextets(text)| == k
    && Number64(Sextets(text)) == Number256(bytes) * Pow2(6 * k - 8 * n)
  }

  /** `bytes` are the whole bytes of the bits `text` carries; what is short of a byte is dropped. */
  ghost predicate Decodes(text: string, bytes: seq<Byte>) {
    var k := |Sextets(text)|;
    && |bytes| == 6 * k / 8
    && Number256(bytes) == Number64(Sextets(text)) / Pow2(6 * k % 8)
  }

  // ----- the codec -----

  /** A chunk's 24 bits, zeros where it is short of three bytes. */
  function Word(chunk: seq<Byte>): nat
    requires 1 <= |chunk| <= 3
  {
    ByteAt(chunk, 0) * 65536 + ByteAt(chunk, 1) * 256 + ByteAt(chunk, 2)
  }

  function ByteAt(chunk: seq<Byte>, i: nat): (b: nat)
    ensures b < 256
  {
    if i < |chunk| then chunk[i] else 0
  }

  function Quad(chunk: seq<Byte>): (quad: string)
    requires 1 <= |chunk| <= 3
    ensures |quad| == 4
  {
    var n := Word(chunk);
    [CharOf(n / 262144 % 64), CharOf(n / 4096 % 64),
     if |chunk| > 1 then CharOf(n / 64 % 64) else '=', if |chunk| > 2 then CharOf(n % 64) else '=']
  }

  method Encode(bytes: seq<Byte>) returns (text: string)
    ensures Encodes(bytes, text)
  {
    text := "";
    NothingEncodes();
    hide Encodes, Quad;
    var i := 0;
    while i < |bytes|
      invariant 0 <= i <= |bytes| && (i % 3 == 0 || i == |bytes|)
      invariant Encodes(bytes[..i], text)
    {
      var chunk := if i + 3 <= |bytes| then bytes[i..i + 3] else bytes[i..];
      ChunkEncodes(bytes[..i], text, chunk);
      assert bytes[..i] + chunk == bytes[..i + |chunk|];
      text := text + Quad(chunk);
      i := i + |chunk|;
    }
    assert bytes[..|bytes|] == bytes;
  }

  /** The decoder between characters: the text's bits are the bytes out and, below 2^`bits`, the accumulator. */
  ghost predicate Carries(text: string, out: seq<Byte>, acc: nat, bits: nat) {
    && acc < Pow2(bits) && 8 * |out| + bits == 6 * |Sextets(text)|
    && Held(Number256(out), acc, bits) == Number64(Sextets(text))
  }

  /** Skipping anything outside the alphabet, padding included. */
  method Decode(text: string) returns (out: seq<Byte>)
    ensures Decodes(text, out)
  {
    hide Carries, Decodes, Sextets, ValueOf;
    CarriesNothing();
    out := [];
    var acc: nat, bits: nat := 0, 0;
    for i := 0 to |text|
      invariant bits < 8 && Carries(text[..i], out, acc, bits)
    {
      assert text[..i + 1] == text[..i] + [text[i]];
      CarriesMore(text[..i], out, acc, bits, text[i]);
      var v := ValueOf(text[i]);
      if v.None? {
        continue;
      }
      acc := acc * 64 + v.value;
      bits := bits + 6;
      if bits >= 8 {
        CarriesByte(text[..i + 1], out, acc, bits);
        bits := bits - 8;
        out := out + [acc / Pow2(bits) % 256];
        acc := acc % Pow2(bits);
      }
    }
    assert text[..|text|] == text;
    CarriesAll(text, out, acc, bits);
  }

  // ----- encoding -----

  lemma CharsAreSextets(v: Sextet)
    ensures ValueOf(CharOf(v)) == Some(v)
  {
    LettersInOrder();
    if v < 26 {
      assert CharOf(v) == UPPER[v];
    } else if v < 52 {
      assert CharOf(v) == LOWER[v - 26];
    } else if v < 62 {
      assert CharOf(v) == DECIMALS[v - 52];
    } else {
      assert CharOf(v) == "+/"[v - 62];
    }
  }

  lemma LettersInOrder()
    ensures |UPPER| == |LOWER| == 26 && |DECIMALS| == 10
    ensures forall v: nat :: v < 26 ==> UPPER[v] as int == 'A' as int + v
    ensures forall v: nat :: v < 26 ==> LOWER[v] as int == 'a' as int + v
    ensures forall v: nat :: v < 10 ==> DECIMALS[v] as int == '0' as int + v
  {
  }

  /** Table 1 of RFC 4648: the ASCII code of the character that carries six bits. */
  function TableCode(v: Sextet): nat {
    if v < 26 then 65 + v
    else if v < 52 then 97 + (v - 26)
    else if v < 62 then 48 + (v - 52)
    else if v == 62 then 43
    else 47
  }

  /** The decoder reads a character as six bits exactly where the table has it, and the encoder writes the table's. */
  lemma TableIs(c: char, v: Sextet)
    ensures ValueOf(c) == Some(v) <==> c as int == TableCode(v)
    ensures CharOf(v) as int == TableCode(v)
  {
    CharsAreSextets(v);
    hide CharOf;
  }

  lemma SextetsMore(text: string, c: char)
    ensures Sextets(text + [c]) == Sextets(text) + if ValueOf(c).Some? then [ValueOf(c).value] else []
  {
    assert (text + [c])[..|text|] == text;
  }

  lemma Number64More(s: seq<Sextet>, v: Sextet)
    ensures Number64(s + [v]) == Number64(s) * 64 + v
  {
    assert (s + [v])[..|s|] == s;
  }

  lemma Number256More(b: seq<Byte>, v: Byte)
    ensures Number256(b + [v]) == Number256(b) * 256 + v
  {
    assert (b + [v])[..|b|] == b;
  }

  /** The sextets a chunk's bits fill, the last filled up with zeros. */
  function ChunkSextets(chunk: seq<Byte>): (s: seq<Sextet>)
    requires 1 <= |chunk| <= 3
    ensures |s| == |chunk| + 1
  {
    var n := Word(chunk);
    [n / 262144 % 64, n / 4096 % 64, n / 64 % 64, n % 64][..|chunk| + 1]
  }

  lemma QuadChars(chunk: seq<Byte>)
    requires 1 <= |chunk| <= 3
    ensures forall j :: 0 <= j <= |chunk| ==> ValueOf(Quad(chunk)[j]) == Some(ChunkSextets(chunk)[j])
    ensures forall j :: |chunk| < j < 4 ==> Quad(chunk)[j] == '='
  {
    var q, s := Quad(chunk), ChunkSextets(chunk);
    forall j | 0 <= j < |s| ensures ValueOf(q[j]) == Some(s[j]) {
      hide ValueOf, CharOf, Word;
      assert q[j] == CharOf(s[j]);
      CharsAreSextets(s[j]);
    }
  }

  lemma QuadSextets(text: string, chunk: seq<Byte>)
    requires 1 <= |chunk| <= 3
    ensures Sextets(text + Quad(chunk)) == Sextets(text) + ChunkSextets(chunk)
    ensures forall j :: 0 <= j <= |chunk| ==> ValueOf(Quad(chunk)[j]).Some?
    ensures forall j :: |chunk| < j < 4 ==> Quad(chunk)[j] == '='
  {
    hide ValueOf, Quad, ChunkSextets, Sextets;
    var q, s := Quad(chunk), ChunkSextets(chunk);
    QuadChars(chunk);
    PadIsOutside();
    SextetsMore(text, q[0]);
    SextetsMore(text + [q[0]], q[1]);
    SextetsMore(text + [q[0]] + [q[1]], q[2]);
    SextetsMore(text + [q[0]] + [q[1]] + [q[2]], q[3]);
    assert text + q == text + [q[0]] + [q[1]] + [q[2]] + [q[3]];
    assert s == s[..|s|];
  }

  lemma PadIsOutside()
    ensures ValueOf('=').None?
  {
  }

  lemma NothingEncodes()
    ensures Encodes([], "")
  {
  }

  lemma CarriersMore(n: nat, c: nat)
    requires n % 3 == 0 && 1 <= c <= 3
    ensures 6 * Carriers(n) == 8 * n && (n + 2) / 3 * 4 == Carriers(n)
    ensures Carriers(n + c) == Carriers(n) + c + 1 && (n + c + 2) / 3 * 4 == Carriers(n) + 4
    ensures 6 * Carriers(n + c) - 8 * (n + c) == 6 - 2 * c
  {
  }

  /** One more chunk, after whole ones, encodes on. */
  lemma ChunkEncodes(before: seq<Byte>, text: string, chunk: seq<Byte>)
    requires |before| % 3 == 0 && 1 <= |chunk| <= 3 && Encodes(before, text)
    ensures Encodes(before + chunk, text + Quad(chunk))
  {
    hide Pow2, Quad, Sextets, Number64, Number256, ValueOf, Carriers;
    CarriersMore(|before|, |chunk|);
    SmallPowers();
    QuadSextets(text, chunk);
    ChunkNumbers(before, Sextets(text), chunk);
  }

  lemma DivideBy64(x: nat, q: nat, r: nat)
    requires x == 64 * q + r && r < 64
    ensures x / 64 == q && x % 64 == r
  {
  }

  /** The four sextets of three bytes, by the bits each byte gives them. */
  lemma WordInFour(a: nat, b: nat, c: nat)
    requires a < 256 && b < 256 && c < 256
    ensures var n := a * 65536 + b * 256 + c;
            && n / 262144 % 64 == a / 4 && n / 4096 % 64 == a % 4 * 16 + b / 16
            && n / 64 % 64 == b % 16 * 4 + c / 64 && n % 64 == c % 64
  {
    var n := a * 65536 + b * 256 + c;
    var thrice, twice := 1024 * a + 4 * b + c / 64, 16 * a + b / 16;
    DivideBy64(n, thrice, c % 64);
    DivideBy64(thrice, twice, b % 16 * 4 + c / 64);
    DivideBy64(twice, a / 4, a % 4 * 16 + b / 16);
    ShiftsInSixes(n);
  }

  lemma ShiftsInSixes(n: nat)
    ensures n / 4096 == n / 64 / 64 && n / 262144 == n / 64 / 64 / 64
  {
  }

  /** The bits a chunk adds are its own, then zeros up to a whole sextet. */
  lemma ChunkNumbers(before: seq<Byte>, s: seq<Sextet>, chunk: seq<Byte>)
    requires 1 <= |chunk| <= 3 && Number64(s) == Number256(before)
    ensures Number64(s + ChunkSextets(chunk)) == Number256(before + chunk) * Pow2(6 - 2 * |chunk|)
  {
    hide Pow2, Number64, Number256, ChunkSextets, Word;
    var n, t := Number64(s), ChunkSextets(chunk);
    ChunkPieces(chunk);
    SmallPowers();
    ChunkTail64(s, t);
    ChunkTail256(before, chunk);
    if |chunk| == 1 {
      OneByte(n, chunk[0], t[0], t[1]);
    } else if |chunk| == 2 {
      TwoBytes(n, chunk[0], chunk[1], t[0], t[1], t[2]);
    } else {
      ThreeBytes(n, chunk[0], chunk[1], chunk[2], t[0], t[1], t[2], t[3]);
    }
  }

  lemma OneByte(n: nat, a: nat, t0: nat, t1: nat)
    requires t0 == a / 4 && t1 == a % 4 * 16
    ensures (n * 64 + t0) * 64 + t1 == (n * 256 + a) * 16
  {
  }

  lemma TwoBytes(n: nat, a: nat, b: nat, t0: nat, t1: nat, t2: nat)
    requires t0 == a / 4 && t1 == a % 4 * 16 + b / 16 && t2 == b % 16 * 4
    ensures ((n * 64 + t0) * 64 + t1) * 64 + t2 == ((n * 256 + a) * 256 + b) * 4
  {
  }

  lemma ThreeBytes(n: nat, a: nat, b: nat, c: nat, t0: nat, t1: nat, t2: nat, t3: nat)
    requires t0 == a / 4 && t1 == a % 4 * 16 + b / 16 && t2 == b % 16 * 4 + c / 64 && t3 == c % 64
    ensures (((n * 64 + t0) * 64 + t1) * 64 + t2) * 64 + t3 == ((n * 256 + a) * 256 + b) * 256 + c
  {
  }

  lemma ChunkPieces(chunk: seq<Byte>)
    requires 1 <= |chunk| <= 3
    ensures var a, b, c, t := ByteAt(chunk, 0), ByteAt(chunk, 1), ByteAt(chunk, 2), ChunkSextets(chunk);
            && t[0] == a / 4 && t[1] == a % 4 * 16 + b / 16
            && (|t| > 2 ==> t[2] == b % 16 * 4 + c / 64) && (|t| > 3 ==> t[3] == c % 64)
  {
    hide ByteAt;
    WordInFour(ByteAt(chunk, 0), ByteAt(chunk, 1), ByteAt(chunk, 2));
  }

  lemma ChunkTail64(s: seq<Sextet>, t: seq<Sextet>)
    requires 2 <= |t| <= 4
    ensures |t| == 2 ==> Number64(s + t) == (Number64(s) * 64 + t[0]) * 64 + t[1]
    ensures |t| == 3 ==> Number64(s + t) == ((Number64(s) * 64 + t[0]) * 64 + t[1]) * 64 + t[2]
    ensures |t| == 4 ==> Number64(s + t) == (((Number64(s) * 64 + t[0]) * 64 + t[1]) * 64 + t[2]) * 64 + t[3]
  {
    hide Number64;
    Number64More(s, t[0]);
    Number64More(s + [t[0]], t[1]);
    if |t| == 2 {
      assert s + t == s + [t[0]] + [t[1]];
    } else {
      Number64More(s + [t[0]] + [t[1]], t[2]);
      if |t| == 3 {
        assert s + t == s + [t[0]] + [t[1]] + [t[2]];
      } else {
        Number64More(s + [t[0]] + [t[1]] + [t[2]], t[3]);
        assert s + t == s + [t[0]] + [t[1]] + [t[2]] + [t[3]];
      }
    }
  }

  lemma ChunkTail256(b: seq<Byte>, t: seq<Byte>)
    requires 1 <= |t| <= 3
    ensures |t| == 1 ==> Number256(b + t) == Number256(b) * 256 + t[0]
    ensures |t| == 2 ==> Number256(b + t) == (Number256(b) * 256 + t[0]) * 256 + t[1]
    ensures |t| == 3 ==> Number256(b + t) == ((Number256(b) * 256 + t[0]) * 256 + t[1]) * 256 + t[2]
  {
    hide Number256;
    Number256More(b, t[0]);
    if |t| == 1 {
      assert b + t == b + [t[0]];
    } else {
      Number256More(b + [t[0]], t[1]);
      if |t| == 2 {
        assert b + t == b + [t[0]] + [t[1]];
      } else {
        Number256More(b + [t[0]] + [t[1]], t[2]);
        assert b + t == b + [t[0]] + [t[1]] + [t[2]];
      }
    }
  }

  // ----- decoding -----

  lemma SmallPowers()
    ensures Pow2(0) == 1 && Pow2(2) == 4 && Pow2(4) == 16
  {
    assert Pow2(2) == 4;
  }

  lemma PowersUp(bits: nat)
    ensures Pow2(bits + 6) == 64 * Pow2(bits) && Pow2(bits + 8) == 256 * Pow2(bits)
  {
    assert Pow2(bits + 2) == 4 * Pow2(bits);
    assert Pow2(bits + 4) == 16 * Pow2(bits);
    assert Pow2(bits + 6) == 64 * Pow2(bits);
  }

  /** The number of the bits so far: the bytes out, then the `bits` the accumulator holds. */
  ghost function Held(v: nat, acc: nat, bits: nat): nat {
    v * Pow2(bits) + acc
  }

  lemma Shifted(v: nat, acc: nat, bits: nat, s: Sextet)
    requires acc < Pow2(bits)
    ensures acc * 64 + s < Pow2(bits + 6)
    ensures Held(v, acc * 64 + s, bits + 6) == Held(v, acc, bits) * 64 + s
  {
    PowersUp(bits);
    var p := Pow2(bits);
    assert v * (64 * p) == v * p * 64;
  }

  lemma Grows(a: nat, b: nat, p: nat)
    requires a <= b
    ensures a * p <= b * p
  {
  }

  /** A byte's worth of the accumulator leaves it: the bits are the same ones, and what stays fits below. */
  lemma ByteLeaves(v: nat, acc: nat, more: nat, bits: nat)
    requires more == bits + 8 && acc < Pow2(more)
    ensures acc / Pow2(bits) < 256 && acc % Pow2(bits) < Pow2(bits)
    ensures Held(v * 256 + acc / Pow2(bits), acc % Pow2(bits), bits) == Held(v, acc, more)
  {
    PowersUp(bits);
    hide Pow2;
    var p := Pow2(bits);
    var q := acc / p;
    assert acc == q * p + acc % p;
    if q >= 256 {
      Grows(256, q, p);
    }
    assert (v * 256 + q) * p == v * (256 * p) + q * p;
  }

  lemma WholeBytes(v: nat, acc: nat, bits: nat)
    requires acc < Pow2(bits)
    ensures Held(v, acc, bits) / Pow2(bits) == v
  {
    hide Pow2;
    var p := Pow2(bits);
    var q := (v * p + acc) / p;
    assert q * p <= v * p + acc < (q + 1) * p by {
      assert v * p + acc == q * p + (v * p + acc) % p;
      assert (q + 1) * p == q * p + p;
    }
    assert (v + 1) * p == v * p + p;
    if q < v {
      Grows(q + 1, v, p);
    } else if v < q {
      Grows(v + 1, q, p);
    }
  }

  lemma CarriesNothing()
    ensures Carries([], [], 0, 0)
  {
  }

  lemma CarriesMore(text: string, out: seq<Byte>, acc: nat, bits: nat, c: char)
    requires Carries(text, out, acc, bits)
    ensures ValueOf(c).None? ==> Carries(text + [c], out, acc, bits)
    ensures ValueOf(c).Some? ==> Carries(text + [c], out, acc * 64 + ValueOf(c).value, bits + 6)
  {
    hide Sextets, Number64, Number256, ValueOf, Pow2, Held;
    SextetsMore(text, c);
    if ValueOf(c).Some? {
      Number64More(Sextets(text), ValueOf(c).value);
      Shifted(Number256(out), acc, bits, ValueOf(c).value);
    } else {
      assert Sextets(text + [c]) == Sextets(text);
    }
  }

  lemma CarriesByte(text: string, out: seq<Byte>, acc: nat, bits: nat)
    requires bits >= 8 && Carries(text, out, acc, bits)
    ensures var p := Pow2(bits - 8); Carries(text, out + [acc / p % 256], acc % p, bits - 8)
  {
    hide Sextets, Number64, Number256, Pow2, Held;
    ByteLeaves(Number256(out), acc, bits, bits - 8);
    var byte := acc / Pow2(bits - 8);
    FitsAByte(byte);
    Number256More(out, byte);
  }

  lemma FitsAByte(n: nat)
    requires n < 256
    ensures n % 256 == n
  {
  }

  /** With less than a byte held back, the bytes out are the text's decoding. */
  lemma CarriesAll(text: string, out: seq<Byte>, acc: nat, bits: nat)
    requires bits < 8 && Carries(text, out, acc, bits)
    ensures Decodes(text, out)
  {
    hide Sextets, Number64, Number256, Pow2, Held;
    WholeBytes(Number256(out), acc, bits);
  }

  // ----- the round trip -----

  /** Bytes of one length that write one number are the same bytes. */
  lemma {:induction false} SameBytes(a: seq<Byte>, b: seq<Byte>)
    requires |a| == |b| && Number256(a) == Number256(b)
    ensures a == b
  {
    if |a| > 0 {
      var i := |a| - 1;
      SameBytes(a[..i], b[..i]);
      assert a == a[..i] + [a[i]] && b == b[..i] + [b[i]];
    }
  }

  /** What decodes an encoding is what was encoded, for every byte string. */
  lemma RoundTrips(bytes: seq<Byte>, text: string, out: seq<Byte>)
    requires Encodes(bytes, text) && Decodes(text, out)
    ensures out == bytes
  {
    hide Sextets, Number64, Number256, Pow2, Carriers, Held;
    CarriersSpare(|bytes|);
    WholeBytes(Number256(bytes), 0, 6 * Carriers(|bytes|) - 8 * |bytes|);
    HeldWhole(Number256(bytes), 6 * Carriers(|bytes|) - 8 * |bytes|);
    SameBytes(out, bytes);
  }

  lemma CarriersSpare(n: nat)
    ensures var spare := 6 * Carriers(n) - 8 * n;
            0 <= spare < 8 && 6 * Carriers(n) % 8 == spare && 6 * Carriers(n) / 8 == n
  {
  }

  lemma HeldWhole(v: nat, bits: nat)
    ensures Held(v, 0, bits) == v * Pow2(bits)
  {
  }

  /** A text has one decoding. */
  lemma DecodesOnce(text: string, a: seq<Byte>, b: seq<Byte>)
    requires Decodes(text, a) && Decodes(text, b)
    ensures a == b
  {
    SameBytes(a, b);
  }

  /** Whatever is inserted from outside the alphabet, anywhere, the decoding is the same. */
  lemma InsertedIsSkipped(before: string, noise: string, after: string, out: seq<Byte>)
    requires forall k :: 0 <= k < |noise| ==> ValueOf(noise[k]).None?
    ensures Decodes(before + noise + after, out) <==> Decodes(before + after, out)
  {
    SextetsJoin(before + noise, after);
    SextetsJoin(before, noise);
    SextetsJoin(before, after);
    NoiseHasNone(noise);
    assert Sextets(before + noise + after) == Sextets(before + after);
  }

  lemma {:induction false} SextetsJoin(a: string, b: string)
    ensures Sextets(a + b) == Sextets(a) + Sextets(b)
  {
    hide ValueOf, Sextets;
    if |b| == 0 {
      assert a + b == a && b == [];
      NoSextets();
    } else {
      var i := |b| - 1;
      SextetsJoin(a, b[..i]);
      SextetsMore(a + b[..i], b[i]);
      SextetsMore(b[..i], b[i]);
      assert a + b == a + b[..i] + [b[i]] && b == b[..i] + [b[i]];
    }
  }

  lemma NoSextets()
    ensures Sextets("") == []
  {
  }

  lemma {:induction false} NoiseHasNone(noise: string)
    requires forall k :: 0 <= k < |noise| ==> ValueOf(noise[k]).None?
    ensures Sextets(noise) == []
  {
    if |noise| > 0 {
      NoiseHasNone(noise[..|noise| - 1]);
    }
  }

  /** Out and back. */
  method ThereAndBack(bytes: seq<Byte>) returns (out: seq<Byte>)
    ensures out == bytes
  {
    var text := Encode(bytes);
    out := Decode(text);
    RoundTrips(bytes, text, out);
  }
}
