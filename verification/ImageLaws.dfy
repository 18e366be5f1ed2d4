/** What the checks of the device notice in an image. */
module ImageLaws {
  import opened Bytes
  import opened Crc
  import opened CrcLaws
  import opened Errno
  import opened ImageHeader

  lemma SameWord(a: seq<byte>, i: nat, v: byte, at: nat)
    requires i < |a| && at + 4 <= |a| && (i < at || at + 4 <= i)
    ensures Word(a[i := v], at) == Word(a, at)
  {
  }

  /** A changed byte of a word changes the word. */
  lemma OtherWord(a: seq<byte>, i: nat, v: byte, at: nat)
    requires at + 4 <= |a| && at <= i < at + 4 && v != a[i]
    ensures Word(a[i := v], at) != Word(a, at)
  {
    var b := a[i := v];
    if Word(b, at) == Word(a, at) {
      SameFour(a[at], a[at + 1], a[at + 2], a[at + 3], b[at], b[at + 1], b[at + 2], b[at + 3]);
    }
  }

  lemma DamagedFront(img: seq<byte>, i: nat, v: byte, capacity: int)
    requires |img| >= 128 && i < 8 && v != img[i] && Recognised(img, capacity)
    ensures !Recognised(img[i := v], capacity)
  {
    FirstBytes(img);
    FirstBytes(img[i := v]);
  }

  lemma DamagedChecksum(img: seq<byte>, i: nat, v: byte)
    requires |img| >= 128 && 12 <= i < 16 && v != img[i] && 128 + Word(img, 8) <= |img|
    ensures Word(img[i := v], 8) == Word(img, 8) && !(ChecksumRight(img) && ChecksumRight(img[i := v]))
  {
    hide Word, Crc32Of;
    SameWord(img, i, v, 8);
    OtherWord(img, i, v, 12);
    assert img[i := v][128..128 + Word(img, 8)] == img[128..128 + Word(img, 8)];
  }

  lemma DamagedPayload(img: seq<byte>, i: nat, v: byte)
    requires |img| >= 128 && 128 + Word(img, 8) <= |img| && 128 <= i < 128 + Word(img, 8) && v != img[i]
    ensures Word(img[i := v], 8) == Word(img, 8) && !(ChecksumRight(img) && ChecksumRight(img[i := v]))
  {
    hide Word, Crc32Of;
    SameWord(img, i, v, 8);
    SameWord(img, i, v, 12);
    var n := Word(img, 8);
    assert img[i := v][128..128 + n] == img[128..128 + n][i - 128 := v];
    OneByteChangeDetected32(img[128..128 + n], i - 128, v);
  }

  /** The answer of the device to an image it accepts once one byte is changed: -ENODATA when the byte is one
      of the first eight, -EBADMSG when it belongs to the checksum or to the payload. */
  lemma DamagedImageRefused(img: seq<byte>, ramMax: nat, i: nat, v: byte)
    requires |img| >= 128 && i < |img| && v != img[i]
    ensures Verdict(img, ramMax) == 0 ==>
      && (i < 8 ==> Verdict(img[i := v], ramMax) == -ENODATA)
      && (12 <= i < 16 || 128 <= i < 128 + Word(img, 8) ==> Verdict(img[i := v], ramMax) == -EBADMSG)
  {
    if Verdict(img, ramMax) != 0 { return; }
    assert 128 + Word(img, 8) <= |img|;
    hide Word, ChecksumRight;
    if i < 8 {
      DamagedFront(img, i, v, |img| - 128);
    } else if 12 <= i < 16 {
      SameFront(img, i, v);
      DamagedChecksum(img, i, v);
    } else if 128 <= i < 128 + Word(img, 8) {
      SameFront(img, i, v);
      DamagedPayload(img, i, v);
    }
  }

  /** The front of the image and its RAM word do not depend on the bytes of the checksum or the payload. */
  lemma SameFront(img: seq<byte>, i: nat, v: byte)
    requires |img| >= 128 && i < |img| && (12 <= i < 16 || 128 <= i)
    ensures Recognised(img[i := v], |img| - 128) == Recognised(img, |img| - 128)
    ensures Word(img[i := v], 96) == Word(img, 96)
  {
    FirstBytes(img);
    FirstBytes(img[i := v]);
  }
}
