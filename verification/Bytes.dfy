/** Byte strings and the joining of lists of them. */
module ByteStrings {

  newtype Byte = x: int | 0 <= x < 256

  type Bytes = seq<Byte>

  /** `b"".join(parts)` */
  function Join(parts: seq<Bytes>): Bytes {
    if |parts| == 0 then [] else parts[0] + Join(parts[1..])
  }

  lemma {:induction false} JoinConcat(a: seq<Bytes>, b: seq<Bytes>)
    ensures Join(a + b) == Join(a) + Join(b)
  {
    if |a| == 0 {
      assert a + b == b;
    } else {
      assert (a + b)[1..] == a[1..] + b;
      JoinConcat(a[1..], b);
    }
  }

  lemma JoinSnoc(a: seq<Bytes>, last: Bytes)
    ensures Join(a + [last]) == Join(a) + last
  {
    JoinConcat(a, [last]);
    assert Join([last]) == last;
  }

  /** A longer prefix of the parts joins to a longer prefix of the bytes. */
  lemma JoinPrefix(parts: seq<Bytes>, i: nat, j: nat)
    requires i <= j <= |parts|
    ensures Join(parts[..i]) <= Join(parts[..j])
    ensures (forall k :: i <= k < j ==> parts[k] != []) && i < j ==> |Join(parts[..i])| < |Join(parts[..j])|
  {
    assert parts[..j] == parts[..i] + parts[i..j];
    JoinConcat(parts[..i], parts[i..j]);
    if i < j {
      assert Join(parts[i..j]) == parts[i] + Join(parts[i..j][1..]);
    }
  }

  /** The low `width` bytes of `n`, least significant first, as `struct.pack` lays them out. */
  function LittleEndian(n: nat, width: nat): (b: Bytes)
    ensures |b| == width
  {
    if width == 0 then [] else [(n % 256) as Byte] + LittleEndian(n / 256, width - 1)
  }

  function FromLittleEndian(b: Bytes): nat {
    if |b| == 0 then 0 else b[0] as int + 256 * FromLittleEndian(b[1..])
  }

  function Power256(width: nat): nat {
    if width == 0 then 1 else 256 * Power256(width - 1)
  }

  lemma {:induction false} LittleEndianRoundTrip(n: nat, width: nat)
    requires n < Power256(width)
    ensures FromLittleEndian(LittleEndian(n, width)) == n
  {
    if width > 0 {
      LittleEndianRoundTrip(n / 256, width - 1);
      assert LittleEndian(n, width)[1..] == LittleEndian(n / 256, width - 1);
    }
  }

  lemma {:induction false} FromLittleEndianIsInverse(b: Bytes)
    ensures LittleEndian(FromLittleEndian(b), |b|) == b
  {
    if |b| > 0 {
      FromLittleEndianIsInverse(b[1..]);
      assert FromLittleEndian(b) % 256 == b[0] as int && FromLittleEndian(b) / 256 == FromLittleEndian(b[1..]);
    }
  }

  lemma {:induction false} FromLittleEndianBound(b: Bytes)
    ensures FromLittleEndian(b) < Power256(|b|)
  {
    if |b| > 0 {
      FromLittleEndianBound(b[1..]);
    }
  }
}
