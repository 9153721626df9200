/**
  The stack's checksum: a local variant of the LIN inverted-sum checksum.
  Only the payload is summed (the identifier is excluded), the sum is
  taken modulo 256 with no carry folding, one is added, and the result is
  complemented. The frame builder and the frame validator compute it with
  different byte arithmetic; both are modelled as written and shown to
  agree with one reference definition.
 */
module Checksums {
  import opened Bytes

  /** Reference definition: the complement, in a byte, of the payload sum
      plus one. */
  function Checksum(payload: seq<byte>): (c: byte)
    ensures (Sum(payload) + 1 + c) % 0x100 == 0xFF
    ensures c == (254 - Sum(payload)) % 0x100
  {
    0xFF - (Sum(payload) + 1) % 0x100
  }

  /** The builder's arithmetic in `write` and `writeResponse`: the wrapped
      sum is incremented in place (`suma = suma + 1`, wrapping 255 to 0) and
      then subtracted from 255. */
  function BuilderChecksum(payload: seq<byte>): (c: byte)
    ensures c == Checksum(payload)
  {
    var suma := ToByte(WrapSum(payload) + 1);
    ByteStepsAgree(WrapSum(payload));
    ResidueChecksum(payload);
    ToByte(0xFF - suma)
  }

  /** The validator's arithmetic in `validateChecksum`: `255 - suma - 1`
      evaluated as an `int` (which is -1 when `suma` is 255) and truncated
      to a byte. */
  function ValidatorChecksum(payload: seq<byte>): (c: byte)
    ensures c == Checksum(payload)
  {
    ResidueChecksum(payload);
    ToByte(0xFF - WrapSum(payload) - 1)
  }

  /** The checksum depends only on the payload sum modulo 256. */
  lemma ResidueChecksum(payload: seq<byte>)
    ensures Checksum(payload) == ToByte(0xFF - Sum(payload) % 0x100 - 1)
  {
    var m := Sum(payload) % 0x100;
    ModAddByte(Sum(payload), 1);
    if m == 0xFF {
      assert (Sum(payload) + 1) % 0x100 == 0;
    } else {
      assert (Sum(payload) + 1) % 0x100 == m + 1;
    }
  }

  /** The two byte computations agree for every value of the accumulator,
      including the wrap case 255, where the builder's increment overflows
      to 0 and the validator's subtraction goes negative, and both give
      0xFF. */
  lemma ByteStepsAgree(suma: byte)
    ensures ToByte(0xFF - ToByte(suma + 1)) == ToByte(0xFF - suma - 1)
    ensures suma == 0xFF ==> ToByte(0xFF - ToByte(suma + 1)) == 0xFF
  {
    if suma == 0xFF {
      assert ToByte(suma + 1) == 0;
      assert ToByte(0xFF - suma - 1) == 0xFF;
    } else {
      assert ToByte(suma + 1) == suma + 1;
    }
  }

  /** Builder and validator agree on every payload, so every frame the
      builder emits carries the checksum the validator expects. */
  lemma BuilderMatchesValidator(payload: seq<byte>)
    ensures BuilderChecksum(payload) == ValidatorChecksum(payload)
  {
    ByteStepsAgree(WrapSum(payload));
  }

  /** The worked example: sum 6, plus one is 7, complemented is 248. */
  lemma ChecksumExample()
    ensures Checksum([0x01, 0x02, 0x03]) == 0xF8
  {
    assert [0x01, 0x02, 0x03][..2] == [0x01, 0x02];
    assert [0x01, 0x02][..1] == [0x01];
    assert [0x01][..0] == [];
    assert Sum([0x01, 0x02, 0x03]) == 6;
  }

  /** The bias of one makes the checksum differ from the plain inverted
      modulo-256 sum that the source's frame comment describes, for every
      payload. */
  lemma BiasedDiffersFromInvertedSum(payload: seq<byte>)
    ensures Checksum(payload) != 0xFF - Sum(payload) % 0x100
    ensures Checksum(payload) == (0xFF - Sum(payload) % 0x100 + 0xFF) % 0x100
  {
    ResidueChecksum(payload);
    var m := Sum(payload) % 0x100;
    assert Checksum(payload) == ToByte(0xFF - m - 1);
    if m == 0xFF {
      assert Checksum(payload) == 0xFF;
    } else {
      assert Checksum(payload) == 0xFE - m;
    }
  }
}
