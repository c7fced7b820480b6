/** The allocation bitmaps (kernel/fs/bitmap.c): 8192 bits in the bytes of one block. */
module Bitmap {

  /** 1 << bit in eight bits. */
  function Mask(bit: nat): (m: bv8)
    requires bit < 8
  {
    [1, 2, 4, 8, 16, 32, 64, 128][bit]
  }

  predicate Has(x: bv8, bit: nat)
    requires bit < 8
  {
    x & Mask(bit) != 0
  }

  function With(x: bv8, bit: nat): bv8
    requires bit < 8
  {
    x | Mask(bit)
  }

  function Without(x: bv8, bit: nat): bv8
    requires bit < 8
  {
    x & !Mask(bit)
  }

  predicate WellFormed(d: seq<bv8>) {
    |d| == 1024
  }

  predicate Bit(d: seq<bv8>, n: nat)
    requires WellFormed(d) && n < 8192
  {
    Has(d[n / 8], n % 8)
  }

  /** The bit numbers in use. */
  ghost function Used(d: seq<bv8>): set<int>
    requires WellFormed(d)
  {
    set n: int | 0 <= n < 8192 && Bit(d, n)
  }

  /** Bit number `n` is binary digit n % 8 of byte n / 8. */
  lemma BitIs(d: seq<bv8>, n: nat)
    requires WellFormed(d) && n < 8192
    ensures Bit(d, n) <==> (d[n / 8] >> (n % 8)) & 1 == 1
  {
    ShiftIs(d[n / 8], n % 8);
  }

  lemma ShiftIs(x: bv8, b: nat)
    requires b < 8
    ensures Has(x, b) <==> (x >> b) & 1 == 1
  {
    assert x & 1 != 0 <==> (x >> 0) & 1 == 1;
    assert x & 2 != 0 <==> (x >> 1) & 1 == 1;
    assert x & 4 != 0 <==> (x >> 2) & 1 == 1;
    assert x & 8 != 0 <==> (x >> 3) & 1 == 1;
    assert x & 16 != 0 <==> (x >> 4) & 1 == 1;
    assert x & 32 != 0 <==> (x >> 5) & 1 == 1;
    assert x & 64 != 0 <==> (x >> 6) & 1 == 1;
    assert x & 128 != 0 <==> (x >> 7) & 1 == 1;
  }

  lemma MaskAlgebra(x: bv8, b: nat, c: nat)
    requires b < 8 && c < 8
    ensures Has(With(x, b), c) <==> b == c || Has(x, c)
    ensures Has(Without(x, b), c) <==> b != c && Has(x, c)
  {
    var mb, mc := Mask(b), Mask(c);
    assert b == c <==> mb == mc;
    assert b != c ==> mb & mc == 0;
    assert b == c ==> mb & mc == mc != 0;
    MaskCases(x, b, c);
  }

  lemma MaskCases(x: bv8, b: nat, c: nat)
    requires b < 8 && c < 8
    ensures (x | Mask(b)) & Mask(c) == (x & Mask(c)) | (Mask(b) & Mask(c))
    ensures b != c ==> (x & !Mask(b)) & Mask(c) == x & Mask(c)
    ensures b == c ==> (x & !Mask(b)) & Mask(c) == 0
    ensures b == c ==> (x & Mask(c)) | (Mask(b) & Mask(c)) != 0
  {
  }

  /** A byte is 0xFF exactly when its eight bits are set. */
  lemma FullByte(x: bv8)
    ensures x == 0xFF <==> forall b :: 0 <= b < 8 ==> Has(x, b)
  {
    if forall b :: 0 <= b < 8 ==> Has(x, b) {
      assert Has(x, 0) && Has(x, 1) && Has(x, 2) && Has(x, 3);
      assert Has(x, 4) && Has(x, 5) && Has(x, 6) && Has(x, 7);
    }
  }

  lemma Split(n: nat, byte: nat, bit: nat)
    requires bit < 8
    ensures n == byte * 8 + bit <==> n / 8 == byte && n % 8 == bit
  {
  }

  lemma ByteUpdate(d: seq<bv8>, n: nat, x: bv8, k: nat)
    requires WellFormed(d) && n < 8192 && k < 8192
    ensures Bit(d[n / 8 := x], k) == if k / 8 == n / 8 then Has(x, k % 8) else Bit(d, k)
  {
    hide Has;
  }

  lemma SetOneBit(d: seq<bv8>, n: nat, k: nat)
    requires WellFormed(d) && n < 8192 && k < 8192
    ensures Bit(d[n / 8 := With(d[n / 8], n % 8)], k) <==> k == n || Bit(d, k)
    ensures Bit(d[n / 8 := Without(d[n / 8], n % 8)], k) <==> k != n && Bit(d, k)
  {
    hide Has, With, Without;
    var x := d[n / 8];
    ByteUpdate(d, n, With(x, n % 8), k);
    ByteUpdate(d, n, Without(x, n % 8), k);
    Split(n, k / 8, k % 8);
    MaskAlgebra(x, n % 8, k % 8);
    assert k / 8 == n / 8 ==> (Bit(d, k) <==> Has(x, k % 8));
    hide Bit;
  }

  /** Updating one byte with or without a mask updates one bit. */
  lemma SetOne(d: seq<bv8>, n: nat)
    requires WellFormed(d) && n < 8192
    ensures Used(d[n / 8 := With(d[n / 8], n % 8)]) == Used(d) + {n}
    ensures Used(d[n / 8 := Without(d[n / 8], n % 8)]) == Used(d) - {n}
  {
    forall k: nat | k < 8192
      ensures Bit(d[n / 8 := With(d[n / 8], n % 8)], k) <==> k == n || Bit(d, k)
      ensures Bit(d[n / 8 := Without(d[n / 8], n % 8)], k) <==> k != n && Bit(d, k)
    {
      SetOneBit(d, n, k);
    }
    hide Bit, With, Without, Has;
  }

  /**
   * The answers of the search: a bit number, 0 for a full bitmap, or the
   * panics of buf_write and buf_release on a buffer that was released before.
   */
  datatype Found = Number(n: nat) | Full | WriteUnlocked | ReleaseUnlocked

  ghost predicate AllSet(d: seq<bv8>, n: nat)
    requires WellFormed(d) && n <= 8192
  {
    forall k: nat :: k < n ==> Bit(d, k)
  }

  lemma FullByteBits(data: seq<bv8>, byte: nat)
    requires WellFormed(data) && byte < 1024 && data[byte] == 0xFF && AllSet(data, byte * 8)
    ensures AllSet(data, byte * 8 + 8)
  {
    FullByte(data[byte]);
    forall k: nat | k < byte * 8 + 8 ensures Bit(data, k) {
      if k >= byte * 8 { Split(k, byte, k - byte * 8); }
    }
  }

  /** Some bit other than `n` is clear. */
  ghost predicate OtherClear(d: seq<bv8>, n: nat)
    requires WellFormed(d)
  {
    exists k: nat :: k < 8192 && k != n && !Bit(d, k)
  }

  /** The scan so far: every bit it passed is set, and it gave its buffer up when it set bit 0. */
  ghost predicate Scanning(data: seq<bv8>, d: seq<bv8>, held: bool, n: nat)
    requires WellFormed(data)
  {
    && WellFormed(d) && n <= 8192 && AllSet(d, n)
    && (held ==> d == data)
    && (!held ==> n > 0 && !Bit(data, 0) && Used(d) == Used(data) + {0})
  }

  lemma SetBits(data: seq<bv8>, d: seq<bv8>, n: nat, k: nat)
    requires WellFormed(data) && WellFormed(d) && Used(d) == Used(data) + {n} && k < 8192
    ensures Bit(d, k) <==> k == n || Bit(data, k)
  {
    assert Bit(d, k) <==> k in Used(d);
    assert Bit(data, k) <==> k in Used(data);
  }

  /** The end of the scan: all other bits are set. */
  lemma ScanEnd(data: seq<bv8>, d: seq<bv8>, held: bool)
    requires WellFormed(data) && Scanning(data, d, held, 8192)
    ensures held ==> AllSet(data, 8192)
    ensures !held ==> !Bit(data, 0) && !OtherClear(data, 0) && Used(d) == Used(data) + {0}
  {
    if !held {
      forall k: nat | 0 < k < 8192 ensures Bit(data, k) {
        SetBits(data, d, 0, k);
      }
    }
  }

  /** A clear bit: while the buffer is held it is the least clear one, later it is another one than bit 0. */
  lemma ClearBit(data: seq<bv8>, d: seq<bv8>, held: bool, n: nat)
    requires WellFormed(data) && Scanning(data, d, held, n) && n < 8192 && !Bit(d, n)
    ensures held ==> !Bit(data, n) && AllSet(data, n) && (n > 0 ==> Bit(data, 0))
    ensures !held ==> !Bit(data, 0) && OtherClear(data, 0) && Used(d) == Used(data) + {0}
    ensures !AllSet(data, 8192)
  {
    if !held { SetBits(data, d, 0, n); }
  }

  lemma BitAt(d: seq<bv8>, byte: nat, bit: nat)
    requires WellFormed(d) && byte < 1024 && bit < 8
    ensures byte * 8 + bit < 8192 && (byte * 8 + bit) / 8 == byte && (byte * 8 + bit) % 8 == bit
    ensures Bit(d, byte * 8 + bit) <==> Has(d[byte], bit)
  {
    Split(byte * 8 + bit, byte, bit);
  }

  lemma SetHere(d: seq<bv8>, byte: nat, bit: nat)
    requires WellFormed(d) && byte < 1024 && bit < 8
    ensures Used(d[byte := With(d[byte], bit)]) == Used(d) + {byte * 8 + bit}
  {
    BitAt(d, byte, bit);
    SetOne(d, byte * 8 + bit);
  }

  lemma StartScan(data: seq<bv8>)
    requires WellFormed(data)
    ensures Scanning(data, data, true, 0)
    ensures AllSet(data, 8192) ==> Bit(data, 0)
  {
  }

  lemma Passed(data: seq<bv8>, d: seq<bv8>, held: bool, n: nat)
    requires WellFormed(data) && Scanning(data, d, held, n) && n < 8192 && Bit(d, n)
    ensures Scanning(data, d, held, n + 1)
  {
  }

  lemma TookZero(data: seq<bv8>, d: seq<bv8>)
    requires WellFormed(data) && WellFormed(d) && !Bit(data, 0) && Used(d) == Used(data) + {0}
    ensures Scanning(data, d, false, 1)
  {
    SetBits(data, d, 0, 0);
  }

  lemma ByteDone(data: seq<bv8>, d: seq<bv8>, held: bool, byte: nat)
    requires WellFormed(data) && Scanning(data, d, held, byte * 8) && byte < 1024 && d[byte] == 0xFF
    ensures Scanning(data, d, held, byte * 8 + 8)
  {
    FullByteBits(d, byte);
  }

  lemma NotFull(data: seq<bv8>, n: nat)
    requires WellFormed(data) && n < 8192 && !Bit(data, n)
    ensures !AllSet(data, 8192)
  {
  }

  /**
   * bitmap_search_and_set. With bit 0 in use it takes the least clear bit,
   * and reports a full bitmap only when there is none. With bit 0 clear it
   * takes bit 0, writes and releases the buffer, and goes on: the next clear
   * bit is written through the released buffer, and without one the buffer is
   * released again. `disk` is what was written.
   */
  method SearchAndSet(data: seq<bv8>) returns (disk: seq<bv8>, r: Found)
    requires WellFormed(data)
    ensures WellFormed(disk)
    ensures r == WriteUnlocked <==> !Bit(data, 0) && OtherClear(data, 0)
    ensures r == ReleaseUnlocked <==> !Bit(data, 0) && !OtherClear(data, 0)
    ensures r.WriteUnlocked? || r.ReleaseUnlocked? ==> Used(disk) == Used(data) + {0}
    ensures r.Number? ==> 0 < r.n < 8192 && !Bit(data, r.n) && AllSet(data, r.n) && Used(disk) == Used(data) + {r.n}
    ensures r == Full <==> AllSet(data, 8192)
    ensures r == Full ==> disk == data
  {
    hide Bit, Used, AllSet, OtherClear, Scanning, Has, With;
    StartScan(data);
    disk := data;
    var buf, held, byte := data, true, 0;
    while byte < 1024
      invariant byte <= 1024 && WellFormed(buf) && Scanning(data, buf, held, byte * 8)
      invariant disk == buf && (held ==> buf == data)
    {
      if buf[byte] != 0xFF {
        var bit := 0;
        while bit < 8
          invariant bit <= 8 && WellFormed(buf) && Scanning(data, buf, held, byte * 8 + bit)
          invariant disk == buf && (held ==> buf == data)
        {
          BitAt(buf, byte, bit);
          if !Has(buf[byte], bit) {
            ClearBit(data, buf, held, byte * 8 + bit);
            SetHere(buf, byte, bit);
            buf := buf[byte := With(buf[byte], bit)];
            if !held {
              return disk, WriteUnlocked;
            }
            disk, held := buf, false;
            var bitNum := byte * 8 + bit;
            if bitNum != 0 {
              NotFull(data, bitNum);
              return disk, Number(bitNum);
            }
            TookZero(data, buf);
          } else {
            Passed(data, buf, held, byte * 8 + bit);
          }
          bit := bit + 1;
        }
      } else {
        ByteDone(data, buf, held, byte);
      }
      byte := byte + 1;
    }
    ScanEnd(data, buf, held);
    r := if held then Full else ReleaseUnlocked;
  }

  lemma AllButFirst(bit: nat)
    requires bit < 8
    ensures Has(0xFE, bit) <==> bit != 0
  {
  }

  lemma Nothing(bit: nat)
    requires bit < 8
    ensures !Has(0, bit)
  {
  }

  /** With bit 0 clear the search panics: over an empty bitmap in buf_write, with all other bits set in buf_release. */
  method BitZeroClear() returns (empty: Found, full: Found)
    ensures empty == WriteUnlocked && full == ReleaseUnlocked
  {
    var zeros: seq<bv8> := seq(1024, _ => 0);
    forall k: nat | k < 2 ensures !Bit(zeros, k) {
      Nothing(k);
    }
    assert !Bit(zeros, 1);
    var _, r := SearchAndSet(zeros);
    empty := r;
    var ones: seq<bv8> := seq(1024, i => if i == 0 then 0xFE else 0xFF);
    forall k: nat | k < 8192 ensures Bit(ones, k) <==> k != 0 {
      if k < 8 { AllButFirst(k); } else { FullByte(0xFF); }
    }
    var _, r2 := SearchAndSet(ones);
    full := r2;
  }

  /** bitmap_unset: bit 0 and numbers past the block are refused, any other bit is cleared. */
  method Unset(data: seq<bv8>, bitNum: nat) returns (d: seq<bv8>)
    requires WellFormed(data)
    ensures WellFormed(d)
    ensures Used(d) == if bitNum == 0 || bitNum >= 8192 then Used(data) else Used(data) - {bitNum}
  {
    d := data;
    if bitNum == 0 {
      return;
    }
    var byte, bit := bitNum / 8, bitNum % 8;
    if byte >= 1024 {
      return;
    }
    SetOne(data, bitNum);
    d := d[byte := Without(d[byte], bit)];
  }

  // ---------- counting ----------

  ghost function Below(n: nat): set<int> {
    if n == 0 then {} else Below(n - 1) + {n - 1}
  }

  lemma {:induction false} BelowIs(n: nat)
    ensures |Below(n)| == n && forall k :: k in Below(n) <==> 0 <= k < n
  {
    if n > 0 {
      BelowIs(n - 1);
    }
  }

  /** A bitmap with no clear bit has all its bits in use. */
  lemma AllSetMeansFull(d: seq<bv8>)
    requires WellFormed(d) && AllSet(d, 8192)
    ensures |Used(d)| == 8192
  {
    BelowIs(8192);
    assert Used(d) == Below(8192);
  }

  lemma UsedIsBounded(d: seq<bv8>)
    requires WellFormed(d)
    ensures |Used(d)| <= 8192
  {
    BelowIs(8192);
    assert Used(d) + (Below(8192) - Used(d)) == Below(8192);
  }
}
