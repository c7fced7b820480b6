/**
 * Sv39 address and page-table-entry arithmetic (include/mem/vmem.h).
 *
 * A shift by k bits is a division or a multiplication by 2^k, a mask of the
 * low k bits is a remainder, and a left shift wraps at 64 bits.
 */
module Sv39 {

  const TWO64: nat := 0x1_0000_0000_0000_0000
  type uint64 = x: int | 0 <= x < TWO64

  const VA_MAX: nat := 0x40_0000_0000
  const TRAMPOLINE: nat := VA_MAX - 4096
  const TRAPFRAME: nat := TRAMPOLINE - 4096

  // The same bounds counted in pages.
  const VPN_MAX: nat := 0x400_0000
  const TRAPFRAME_VPN: nat := VPN_MAX - 2

  const PTE_R: nat := 2
  const PTE_W: nat := 4
  const PTE_X: nat := 8
  const PTE_U: nat := 16

  /** VA_TO_VPN: shift right by 12 + 9 * level, keep nine bits. */
  function VaToVpn(va: nat, level: nat): (i: nat)
    requires level <= 2
    ensures i < 512
  {
    (if level == 0 then va / 0x1000 else if level == 1 then va / 0x20_0000 else va / 0x4000_0000) % 512
  }

  function PaToPte(pa: uint64): uint64 {
    pa / 4096 * 1024
  }

  function PteToPa(pte: uint64): uint64 {
    pte / 1024 * 4096 % TWO64
  }

  function PteFlags(pte: uint64): nat {
    pte % 1024
  }

  predicate IsValid(pte: uint64) {
    pte % 2 == 1
  }

  /** Some of the R, W, X bits is set; PTE_CHECK is the negation. */
  predicate IsLeaf(pte: uint64) {
    pte / 2 % 8 != 0
  }

  /** The permissions make an entry a leaf. */
  predicate HasAccess(perm: nat) {
    perm / 2 % 8 != 0
  }

  /** perm | PTE_V */
  function WithValid(perm: nat): nat {
    if perm % 2 == 1 then perm else perm + 1
  }

  /** PA_TO_PTE(pa) | perm | PTE_V for permissions in the low ten bits. */
  function MakePte(pa: uint64, perm: nat): uint64
    requires perm < 1024
  {
    PaToPte(pa) + WithValid(perm)
  }

  lemma MakeParts(q: nat, w: nat)
    requires w < 1024
    ensures (q * 1024 + w) / 1024 == q && (q * 1024 + w) % 1024 == w
    ensures (q * 1024 + w) % 2 == w % 2
  {
  }

  lemma MakeBits(q: nat, w: nat)
    ensures (q * 1024 + w) / 2 % 8 == w / 2 % 8
  {
    assert (q * 1024 + w) / 2 == q * 512 + w / 2;
  }

  lemma PageBack(pa: uint64)
    ensures pa / 4096 * 4096 % TWO64 == pa <==> pa % 4096 == 0
  {
    assert pa / 4096 * 4096 <= pa;
  }

  lemma ValidBits(perm: nat)
    requires perm < 1024
    ensures WithValid(perm) < 1024 && WithValid(perm) % 2 == 1 && WithValid(perm) / 2 == perm / 2
  {
  }

  /** Encoding then decoding gives the address back exactly when it is page aligned. */
  lemma PteRoundTrip(pa: uint64, perm: nat)
    requires perm < 1024
    ensures PteToPa(MakePte(pa, perm)) == pa <==> pa % 4096 == 0
    ensures PteFlags(MakePte(pa, perm)) == WithValid(perm)
    ensures IsValid(MakePte(pa, perm))
    ensures IsLeaf(MakePte(pa, perm)) <==> HasAccess(perm)
  {
    ValidBits(perm);
    var w := WithValid(perm);
    hide WithValid;
    MakeParts(pa / 4096, w);
    MakeBits(pa / 4096, w);
    PageBack(pa);
  }

  /** Decoding then encoding gives a valid entry back exactly when its top two bits are clear. */
  lemma PteDecodeEncode(pte: uint64)
    requires IsValid(pte)
    ensures MakePte(PteToPa(pte), PteFlags(pte)) == pte <==> pte < 0x4000_0000_0000_0000
  {
    var q, f := pte / 1024, pte % 1024;
    assert WithValid(f) == f;
    assert pte == q * 1024 + f;
    if pte < 0x4000_0000_0000_0000 {
      assert PteToPa(pte) == q * 4096;
    } else {
      assert PteToPa(pte) < q * 4096;
    }
  }

  /** Page index of an address, and the nine-bit digit of a page index. */
  function Digit(vpn: nat, level: nat): (i: nat)
    requires level <= 2
    ensures i < 512
  {
    (if level == 0 then vpn else if level == 1 then vpn / 512 else vpn / 262144) % 512
  }

  lemma VaDigits(va: nat)
    ensures forall level :: 0 <= level <= 2 ==> VaToVpn(va, level) == Digit(va / 4096, level)
  {
    assert va / 0x20_0000 == va / 4096 / 512;
    assert va / 0x4000_0000 == va / 4096 / 262144;
  }

  /** A page index is the number written by its three digits. */
  lemma DigitsOf(vpn: nat)
    requires vpn < VPN_MAX
    ensures vpn == Digit(vpn, 2) * 262144 + Digit(vpn, 1) * 512 + Digit(vpn, 0)
  {
    assert vpn / 262144 == vpn / 512 / 512;
  }

  /** The VPN triple of a legal address determines its page, and conversely. */
  lemma VpnTripleDeterminesPage(va: nat, wa: nat)
    requires va < VA_MAX && wa < VA_MAX
    ensures va / 4096 == wa / 4096 <==>
            forall level :: 0 <= level <= 2 ==> VaToVpn(va, level) == VaToVpn(wa, level)
  {
    VaDigits(va);
    VaDigits(wa);
    DigitsOf(va / 4096);
    DigitsOf(wa / 4096);
    if forall level :: 0 <= level <= 2 ==> VaToVpn(va, level) == VaToVpn(wa, level) {
      forall level | 0 <= level <= 2 ensures Digit(va / 4096, level) == Digit(wa / 4096, level) {
        assert VaToVpn(va, level) == VaToVpn(wa, level);
      }
    }
  }
}
