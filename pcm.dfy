/** The PCM decoding inside `playMessageAudio` (components/ChatInterface.tsx):
    the speech model's reply, once base64-decoded to a binary string, is copied
    into a byte array, read as little-endian signed 16-bit samples, and each
    sample is divided by 32768 into a mono 24 kHz channel buffer.

    Every sample value n satisfies |n| <= 2^15, so n / 32768 needs at most 15
    significant bits and is stored exactly by the Float32Array; the model uses
    `real` without losing anything. */
module Pcm {
  import opened Types

  /** One element of a Uint8Array. */
  type Byte = x: int | 0 <= x < 256

  /** Storing a UTF-16 code unit into a Uint8Array keeps its low eight bits. */
  function ByteOf(c: char): Byte {
    (c as int) % 256
  }

  /** A binary string, as `atob` returns: every code unit is below 256. */
  predicate IsBinaryString(s: string) {
    forall i :: 0 <= i < |s| ==> (s[i] as int) < 256
  }

  /** The bytes `bytes[i] = binaryString.charCodeAt(i)` writes. The decoded
      base64 string only holds code units below 256, which are kept as they are. */
  function Bytes(binary: string): (b: seq<Byte>)
    ensures |b| == |binary|
    ensures forall i :: 0 <= i < |b| && (binary[i] as int) < 256 ==> b[i] == binary[i] as int
    ensures IsBinaryString(binary) ==> forall i :: 0 <= i < |b| ==> b[i] == binary[i] as int
  {
    seq(|binary|, i requires 0 <= i < |binary| => ByteOf(binary[i]))
  }

  /** One Int16Array element over two bytes, little-endian, two's complement. */
  function SignedSample(lo: Byte, hi: Byte): (v: int)
    ensures -32768 <= v <= 32767
    ensures v < 0 <==> hi >= 128
  {
    var u := lo + 256 * hi;
    if u >= 32768 then u - 65536 else u
  }

  /** The Int16Array view of the bytes; its length is the frame count. The view
      cannot be built over an odd number of bytes (the constructor throws a
      RangeError). */
  function Frames(bytes: seq<Byte>): (r: Option<seq<int>>)
    ensures r.Some? <==> |bytes| % 2 == 0
    ensures r.Some? ==> |r.value| == |bytes| / 2
    ensures r.Some? ==> forall i :: 0 <= i < |r.value| ==> r.value[i] == SignedSample(bytes[2 * i], bytes[2 * i + 1])
  {
    if |bytes| % 2 != 0 then None
    else Some(seq(|bytes| / 2, i requires 0 <= i < |bytes| / 2 => SignedSample(bytes[2 * i], bytes[2 * i + 1])))
  }

  /** `dataInt16[i] / 32768.0`. */
  function Normalise(v: int): real {
    v as real / 32768.0
  }

  /** The channel data the decoder writes: each frame normalised. */
  function Samples(bytes: seq<Byte>): Option<seq<real>> {
    var frames := Frames(bytes);
    if frames.None? then None
    else Some(seq(|frames.value|, i requires 0 <= i < |frames.value| => Normalise(frames.value[i])))
  }

  /** The decoding loop of `playMessageAudio`: fill a Uint8Array from the binary
      string, then fill the channel buffer from the 16-bit view. */
  method DecodePcm(binary: string) returns (r: Option<seq<real>>)
    ensures r == Samples(Bytes(binary))
  {
    var len := |binary|;
    var bytes := new Byte[len];
    for i := 0 to len
      invariant forall k :: 0 <= k < i ==> bytes[k] == ByteOf(binary[k])
    {
      bytes[i] := ByteOf(binary[i]);
    }
    assert bytes[..] == Bytes(binary);
    if len % 2 != 0 {
      assert Samples(Bytes(binary)) == None;
      return None;
    }
    var frameCount := len / 2;
    var channelData := new real[frameCount];
    for i := 0 to frameCount
      modifies channelData
      invariant forall k :: 0 <= k < i ==> channelData[k] == Normalise(SignedSample(bytes[2 * k], bytes[2 * k + 1]))
    {
      channelData[i] := Normalise(SignedSample(bytes[2 * i], bytes[2 * i + 1]));
    }
    ghost var expected := Samples(bytes[..]).value;
    forall k | 0 <= k < frameCount ensures channelData[k] == expected[k] {
    }
    assert channelData[..] == expected;
    assert bytes[..] == Bytes(binary);
    r := Some(channelData[..]);
  }

  /** Exactly the even-length byte strings decode, into half as many samples. */
  lemma SamplesLength(bytes: seq<Byte>)
    ensures Samples(bytes).Some? <==> |bytes| % 2 == 0
    ensures Samples(bytes).Some? ==> |Samples(bytes).value| == |bytes| / 2
  {
  }

  /** Every decoded sample lies in [-1, 32767/32768]. */
  lemma SamplesInRange(bytes: seq<Byte>)
    requires Samples(bytes).Some?
    ensures forall i :: 0 <= i < |Samples(bytes).value| ==>
              -1.0 <= Samples(bytes).value[i] <= 32767.0 / 32768.0
  {
    var frames := Frames(bytes).value;
    forall i | 0 <= i < |frames| ensures -1.0 <= Normalise(frames[i]) <= 32767.0 / 32768.0 {
      NormaliseInRange(frames[i]);
    }
  }

  /** Normalisation maps the 16-bit range onto [-1, 32767/32768]. */
  lemma NormaliseInRange(v: int)
    requires -32768 <= v <= 32767
    ensures -1.0 <= Normalise(v) <= 32767.0 / 32768.0
  {
  }

  /** The little-endian bytes of a 16-bit sample: the inverse of `SignedSample`. */
  function Encode(v: int): (r: (Byte, Byte))
    requires -32768 <= v <= 32767
    ensures SignedSample(r.0, r.1) == v
  {
    var u := if v < 0 then v + 65536 else v;
    (u % 256, u / 256)
  }

  /** Reading back what `Encode` wrote gives the two bytes it started from. */
  lemma SignedSampleEncode(lo: Byte, hi: Byte)
    ensures Encode(SignedSample(lo, hi)) == (lo, hi)
  {
  }

  /** Encoding a sequence of 16-bit samples into a little-endian byte stream. */
  function EncodeFrames(vs: seq<int>): (b: seq<Byte>)
    requires forall i :: 0 <= i < |vs| ==> -32768 <= vs[i] <= 32767
    ensures |b| == 2 * |vs|
    ensures forall i :: 0 <= i < |vs| ==> (b[2 * i], b[2 * i + 1]) == Encode(vs[i])
  {
    if vs == [] then []
    else
      var rest := EncodeFrames(vs[1..]);
      assert forall i :: 1 <= i < |vs| ==> (rest[2 * (i - 1)], rest[2 * (i - 1) + 1]) == Encode(vs[i]);
      [Encode(vs[0]).0, Encode(vs[0]).1] + rest
  }

  /** Round trip: the 16-bit view of an encoded stream is the samples encoded. */
  lemma FramesEncode(vs: seq<int>)
    requires forall i :: 0 <= i < |vs| ==> -32768 <= vs[i] <= 32767
    ensures Frames(EncodeFrames(vs)) == Some(vs)
  {
    var b := EncodeFrames(vs);
    forall i | 0 <= i < |vs| ensures SignedSample(b[2 * i], b[2 * i + 1]) == vs[i] {
      var lo, hi := b[2 * i], b[2 * i + 1];
      assert (lo, hi) == Encode(vs[i]);
    }
    FramesOf(b, vs);
  }

  /** The 16-bit view is determined by the byte pairs it reads. */
  lemma FramesOf(b: seq<Byte>, vs: seq<int>)
    requires |b| == 2 * |vs|
    requires forall i :: 0 <= i < |vs| ==> SignedSample(b[2 * i], b[2 * i + 1]) == vs[i]
    ensures Frames(b) == Some(vs)
  {
    assert |b| % 2 == 0;
    var f := Frames(b).value;
    assert f == vs;
  }

  /** Decoding loses no byte: two byte strings with the same decoded samples
      are the same byte string. */
  lemma SamplesInjective(a: seq<Byte>, b: seq<Byte>)
    requires Samples(a).Some? && Samples(a) == Samples(b)
    ensures a == b
  {
    var fa, fb := Frames(a).value, Frames(b).value;
    assert |a| == |b|;
    forall i | 0 <= i < |a| / 2 ensures a[2 * i] == b[2 * i] && a[2 * i + 1] == b[2 * i + 1] {
      assert Normalise(fa[i]) == Samples(a).value[i] == Samples(b).value[i] == Normalise(fb[i]);
      assert fa[i] == fb[i];
      SignedSampleEncode(a[2 * i], a[2 * i + 1]);
      SignedSampleEncode(b[2 * i], b[2 * i + 1]);
    }
    forall k | 0 <= k < |a| ensures a[k] == b[k] {
      var i := k / 2;
      assert k == 2 * i || k == 2 * i + 1;
    }
  }

  /** The four bytes 00 00 00 80 decode to the samples 0.0 and -1.0. */
  lemma DecodeExample()
    ensures Samples(Bytes("\0\0\0\U{80}")) == Some([0.0, -1.0])
  {
    ExampleBytes();
    var f := Frames([0, 0, 0, 128]).value;
    assert f[0] == SignedSample(0, 0) == 0;
    assert f[1] == SignedSample(0, 128) == -32768;
    assert f == [0, -32768];
    var r := Samples([0, 0, 0, 128]).value;
    assert r[0] == Normalise(0) == 0.0;
    assert r[1] == Normalise(-32768) == -1.0;
    assert r == [0.0, -1.0];
  }

  /** The binary string of the example is the bytes 00 00 00 80. */
  lemma ExampleBytes()
    ensures Bytes("\0\0\0\U{80}") == [0, 0, 0, 128]
  {
  }

  /** An odd number of bytes cannot be viewed as 16-bit samples. */
  lemma DecodeOddFails()
    ensures Samples(Bytes("\0\0\0")) == None
  {
  }
}
