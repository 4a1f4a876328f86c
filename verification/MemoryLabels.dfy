/** Labels of loads and stores, packed into machine words: four flag bits, a byte, an address. */
module MemoryLabels {

  type Label = nat

  const ADDRESS_LIMIT := 0x1_0000
  const BYTE_LIMIT := 0x100
  // the largest packed label is below this
  const LABEL_LIMIT := 0x1000_0000

  function NoneStoreLabel(address: nat, byte: nat): Label { address * 4096 + byte * 16 }
  function NoneLoadLabel(address: nat): Label { NoneStoreLabel(address, 0) + 1 }
  function ReleaseStoreLabel(address: nat, byte: nat): Label { NoneStoreLabel(address, byte) + 2 }
  function AcquireLoadLabel(address: nat): Label { ReleaseStoreLabel(address, 0) + 1 }
  function AssumeNeqLabel(address: nat, byte: nat): Label { AcquireLoadLabel(address) + byte * 16 + 4 }
  function AssumeEqLabel(address: nat, byte: nat): Label { AssumeNeqLabel(address, byte) + 8 }

  predicate IsNoneStore(op: Label) { op % 4 == 0 }
  predicate IsNoneLoad(op: Label) { op % 4 == 1 }
  predicate IsReleaseStore(op: Label) { op % 4 == 2 }
  predicate IsAcquireLoad(op: Label) { op % 4 == 3 }
  predicate IsAssume(op: Label) { (op / 4) % 2 == 1 }
  predicate IsAssumeEq(op: Label) { (op / 4) % 4 == 3 }
  predicate IsAssumeNeq(op: Label) { (op / 4) % 4 == 1 }

  function Byte(op: Label): nat { (op / 16) % BYTE_LIMIT }
  function Address(op: Label): nat { (op / 4096) % ADDRESS_LIMIT }

  /** The fields of a packed label, with `flags` in its four lowest bits. */
  predicate Packs(l: Label, address: nat, byte: nat, flags: nat)
  {
    && l < LABEL_LIMIT && Address(l) == address && Byte(l) == byte
    && l % 4 == flags % 4 && (l / 4) % 4 == flags / 4
  }

  /** Packing loses nothing, and labels of different kinds never meet. */
  lemma LabelsDecode(address: nat, byte: nat)
    requires address < ADDRESS_LIMIT && byte < BYTE_LIMIT
    ensures Packs(NoneStoreLabel(address, byte), address, byte, 0)
    ensures Packs(NoneLoadLabel(address), address, 0, 1)
    ensures Packs(ReleaseStoreLabel(address, byte), address, byte, 2)
    ensures Packs(AcquireLoadLabel(address), address, 0, 3)
    ensures Packs(AssumeNeqLabel(address, byte), address, byte, 7)
    ensures Packs(AssumeEqLabel(address, byte), address, byte, 15)
  {
    Unpack(address, byte, 0);
    Unpack(address, 0, 1);
    Unpack(address, byte, 2);
    Unpack(address, 0, 3);
    Unpack(address, byte, 7);
    Unpack(address, byte, 15);
  }

  /** What the tests for the kinds of labels say about the flags. */
  lemma FlagsDecide(l: Label, address: nat, byte: nat, flags: nat)
    requires Packs(l, address, byte, flags) && flags in {0, 1, 2, 3, 7, 15}
    ensures IsNoneStore(l) <==> flags == 0
    ensures IsNoneLoad(l) <==> flags == 1
    ensures IsReleaseStore(l) <==> flags == 2
    ensures IsAcquireLoad(l) <==> flags in {3, 7, 15}
    ensures IsAssume(l) <==> flags in {7, 15}
    ensures IsAssumeNeq(l) <==> flags == 7
    ensures IsAssumeEq(l) <==> flags == 15
  {
    Parity(l / 4, flags / 4);
  }

  lemma Parity(n: nat, q: nat)
    requires n % 4 == q && q < 4
    ensures n % 2 == 1 <==> q in {1, 3}
  {
    var k := n / 4;
    if q < 2 {
      Even(n, 2 * k, q);
    } else {
      Even(n, 2 * k + 1, q - 2);
    }
  }

  lemma Even(n: nat, k: nat, rest: nat)
    requires n == 2 * k + rest && rest < 2
    ensures n % 2 == rest
  {
  }

  lemma Unpack(address: nat, byte: nat, flags: nat)
    requires address < ADDRESS_LIMIT && byte < BYTE_LIMIT && flags < 16
    ensures Packs(address * 4096 + byte * 16 + flags, address, byte, flags)
  {
    var l := address * 4096 + byte * 16 + flags;
    UnpackFlags(address * 256 + byte, flags);
    assert l == (address * 256 + byte) * 16 + flags;
    assert l / 16 == address * 256 + byte;
    assert l / 4096 == address;
  }

  lemma UnpackFlags(rest: nat, flags: nat)
    requires flags < 16
    ensures var l := rest * 16 + flags; l / 16 == rest && l % 4 == flags % 4 && (l / 4) % 4 == flags / 4
  {
    assert (rest * 16 + flags) / 4 == 4 * rest + flags / 4;
  }

  /** A larger label never has a smaller address. */
  lemma AddressMonotone(l: Label, k: Label)
    requires l <= k < LABEL_LIMIT
    ensures Address(l) <= Address(k)
  {
    assert l / 4096 <= k / 4096 < ADDRESS_LIMIT;
  }
}
