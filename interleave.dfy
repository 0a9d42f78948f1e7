/** Interleaving of planar per-channel float buffers into the channel-fastest
    fixed-point layout the device uses (`buf[n*C + c]` holds frame n of
    channel c), and back.  The codec is a parameter, so one definition
    serves every bit depth. */
module Interleave {

  /** Index arithmetic of the interleaved layout. */
  lemma FrameIndex(m: nat, c: nat, channels: nat, frames: nat)
    requires m < frames && c < channels
    ensures m * channels + c < frames * channels
    ensures (m + 1) * channels <= frames * channels
  {
    assert (frames - (m + 1)) * channels >= 0;
  }

  /** With a positive channel count, `n*C` orders like `n`. */
  lemma ScaledOrder(n: nat, frames: nat, channels: nat)
    requires channels > 0
    ensures n * channels < frames * channels <==> n < frames
  {
    if n < frames {
      FrameIndex(n, 0, channels, frames);
    } else {
      assert (n - frames) * channels >= 0;
    }
  }

  /** Every channel holds at least `frames` samples. */
  ghost predicate Covers(planar: seq<seq<real>>, frames: nat)
  {
    forall c :: 0 <= c < |planar| ==> frames <= |planar[c]|
  }

  /** Frame m: sample m of each channel, encoded, in channel order. */
  function Frame<T>(encode: real -> T, planar: seq<seq<real>>, m: nat): (r: seq<T>)
    requires Covers(planar, m + 1)
    ensures |r| == |planar|
  {
    seq(|planar|, c requires 0 <= c < |planar| => encode(planar[c][m]))
  }

  /** Frames 0 .. n-1 encoded and interleaved; the specification of the
      playback encode loop. */
  function Interleaved<T>(encode: real -> T, planar: seq<seq<real>>, n: nat): (r: seq<T>)
    requires Covers(planar, n)
    ensures |r| == n * |planar|
  {
    if n == 0 then [] else Interleaved(encode, planar, n - 1) + Frame(encode, planar, n - 1)
  }

  /** Slot m*C + c of the interleaved buffer holds frame m of channel c. */
  lemma {:induction false} InterleavedAt<T>(encode: real -> T, planar: seq<seq<real>>, n: nat, m: nat, c: nat)
    requires Covers(planar, n)
    requires m < n && c < |planar|
    ensures m * |planar| + c < n * |planar|
    ensures Interleaved(encode, planar, n)[m * |planar| + c] == encode(planar[c][m])
  {
    FrameIndex(m, c, |planar|, n);
    if m < n - 1 {
      InterleavedAt(encode, planar, n - 1, m, c);
    } else {
      assert |Interleaved(encode, planar, n - 1)| == m * |planar|;
    }
  }

  /** Frame m of channel c read out of an interleaved buffer of `frames`
      frames and decoded: the specification of the capture decode loop. */
  function Sample<T>(decode: T -> real, data: seq<T>, channels: nat, frames: nat, m: nat, c: nat): real
    requires m < frames && c < channels && frames * channels <= |data|
  {
    FrameIndex(m, c, channels, frames);
    decode(data[m * channels + c])
  }

  /** The planar channels an interleaved buffer decodes to. */
  function Planar<T>(decode: T -> real, data: seq<T>, channels: nat, frames: nat): (p: seq<seq<real>>)
    requires frames * channels <= |data|
    ensures |p| == channels && Covers(p, frames)
  {
    seq(channels, c requires 0 <= c < channels =>
      seq(frames, m requires 0 <= m < frames => Sample(decode, data, channels, frames, m, c)))
  }

  /** Interleave, then decode: each sample comes back as decode(encode(v)). */
  lemma DecodeAfterEncode<T>(encode: real -> T, decode: T -> real, planar: seq<seq<real>>, frames: nat, m: nat, c: nat)
    requires Covers(planar, frames) && m < frames && c < |planar|
    ensures Sample(decode, Interleaved(encode, planar, frames), |planar|, frames, m, c)
         == decode(encode(planar[c][m]))
  {
    InterleavedAt(encode, planar, frames, m, c);
  }

  /** Decode, then interleave again: with a codec whose encode undoes its
      decode, the interleaved data is reproduced exactly. */
  lemma {:induction false} EncodeAfterDecode<T>(encode: real -> T, decode: T -> real, data: seq<T>, channels: nat, frames: nat, n: nat)
    requires forall x :: encode(decode(x)) == x
    requires n <= frames && frames * channels <= |data|
    ensures n * channels <= |data|
    ensures Interleaved(encode, Planar(decode, data, channels, frames), n) == data[..n * channels]
  {
    var p := Planar(decode, data, channels, frames);
    if n == 0 {
    } else {
      EncodeAfterDecode(encode, decode, data, channels, frames, n - 1);
      var lo := (n - 1) * channels;
      assert lo + channels == n * channels;
      assert n * channels <= frames * channels by {
        assert (frames - n) * channels >= 0;
      }
      var f := Frame(encode, p, n - 1);
      forall c | 0 <= c < channels
        ensures f[c] == data[lo + c]
      {
        assert p[c][n - 1] == Sample(decode, data, channels, frames, n - 1, c);
      }
      assert f == data[lo..n * channels];
      assert data[..n * channels] == data[..lo] + data[lo..n * channels];
    }
  }

  /** The playback encode loop of the per-cycle callback: frame counter n
      and buffer offset bufval advance together, bufval == n*C. */
  method EncodeInterleaved<T>(encode: real -> T, planar: seq<seq<real>>, nframes: nat, buf: array<T>)
    requires Covers(planar, nframes)
    requires nframes * |planar| <= buf.Length
    modifies buf
    ensures buf[..nframes * |planar|] == Interleaved(encode, planar, nframes)
    ensures buf[nframes * |planar|..] == old(buf[nframes * |planar|..])
  {
    var channels := |planar|;
    var bufval, n := 0, 0;
    while bufval < nframes * channels
      invariant 0 <= n <= nframes && bufval == n * channels
      invariant buf[..bufval] == Interleaved(encode, planar, n)
      invariant buf[nframes * channels..] == old(buf[nframes * channels..])
      decreases nframes * channels - bufval
    {
      ScaledOrder(n, nframes, channels);
      FrameIndex(n, 0, channels, nframes);
      var channel := 0;
      while channel < channels
        invariant 0 <= channel <= channels
        invariant buf[..bufval + channel] == Interleaved(encode, planar, n) + Frame(encode, planar, n)[..channel]
        invariant buf[nframes * channels..] == old(buf[nframes * channels..])
      {
        buf[bufval + channel] := encode(planar[channel][n]);
        channel := channel + 1;
      }
      bufval, n := bufval + channels, n + 1;
    }
    if channels > 0 {
      ScaledOrder(n, nframes, channels);
    }
  }

  /** The capture decode loop: frame n of channel c is read from slot
      bufval + c and written into sample n of that channel's port buffer. */
  method DecodeInterleaved<T>(decode: T -> real, buf: array<T>, nframes: nat, ports: seq<array<real>>)
    requires nframes * |ports| <= buf.Length
    requires forall c :: 0 <= c < |ports| ==> nframes <= ports[c].Length
    requires forall i, j :: 0 <= i < j < |ports| ==> ports[i] != ports[j]
    requires forall c :: 0 <= c < |ports| ==> (ports[c] as object) != buf
    modifies ports
    ensures forall c, m :: 0 <= c < |ports| && 0 <= m < nframes ==>
              ports[c][m] == Sample(decode, buf[..], |ports|, nframes, m, c)
    ensures forall c, m :: 0 <= c < |ports| && nframes <= m < ports[c].Length ==>
              ports[c][m] == old(ports[c][m])
  {
    var channels := |ports|;
    ghost var data := buf[..];
    var bufval, n := 0, 0;
    while bufval < nframes * channels
      invariant 0 <= n <= nframes && bufval == n * channels
      invariant buf[..] == data
      invariant forall c, m :: 0 <= c < channels && 0 <= m < n ==>
                  ports[c][m] == Sample(decode, data, channels, nframes, m, c)
      invariant forall c, m :: 0 <= c < channels && n <= m < ports[c].Length ==>
                  ports[c][m] == old(ports[c][m])
      decreases nframes * channels - bufval
    {
      ScaledOrder(n, nframes, channels);
      var channel := 0;
      while channel < channels
        invariant 0 <= channel <= channels
        invariant buf[..] == data
        invariant forall c, m :: 0 <= c < channels && 0 <= m < n ==>
                    ports[c][m] == Sample(decode, data, channels, nframes, m, c)
        invariant forall c :: 0 <= c < channel ==>
                    ports[c][n] == Sample(decode, data, channels, nframes, n, c)
        invariant forall c, m :: 0 <= c < channels && n <= m < ports[c].Length && (m != n || channel <= c) ==>
                    ports[c][m] == old(ports[c][m])
      {
        FrameIndex(n, channel, channels, nframes);
        ports[channel][n] := decode(buf[bufval + channel]);
        channel := channel + 1;
      }
      bufval, n := bufval + channels, n + 1;
    }
    if channels > 0 {
      ScaledOrder(n, nframes, channels);
    }
  }
}
