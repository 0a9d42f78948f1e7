/** The JACK callbacks of the bridge: buffer-size change, sample-rate
    negotiation and the per-cycle process callback.  The callbacks are
    serialised by the host, so they are methods of one session object. */
module Bridge {
  import opened SampleCodec
  import opened Settings
  import opened Interleave

  /** uint32_t / jack_nframes_t. */
  type U32 = x: int | 0 <= x < 0x1_0000_0000

  const EPIPE: int := 32
  const SizeOfShort: nat := 2

  datatype Option<T> = None | Some(value: T)

  /** How a callback ends: it returns a value, or the process exits. */
  datatype Outcome = Returned(code: int) | Exited(status: int)

  /** The ALSA calls one process cycle makes, in order. */
  datatype DeviceCall =
    | WriteI(frames: nat, samples: seq<int>)   // snd_pcm_writei
    | Recover(err: int)                        // snd_pcm_recover
    | ReadI(frames: nat)                       // snd_pcm_readi
    | Prepare                                  // snd_pcm_prepare

  /** Bytes per sample of the buffer each format is encoded into. */
  function Width(fmt: Format): nat
  {
    if fmt == S16 then 2 else 4
  }

  /** Elements of the scratch buffer the resize callback allocates for one
      direction: it asks for nframes * sizeof(short) * channels bytes for
      every format, and the buffer holds that many bytes' worth of elements. */
  function AllocatedSlots(fmt: Format, nframes: nat, channels: nat): nat
  {
    (nframes * SizeOfShort * channels) / Width(fmt)
  }

  /** As written, a 16-bit buffer holds one slot per sample; a 24- or 32-bit
      buffer only half of them, although the encode loop writes all of them. */
  lemma AllocationAsWritten(fmt: Format, nframes: nat, channels: nat)
    ensures fmt == S16 ==> AllocatedSlots(fmt, nframes, channels) == nframes * channels
    ensures fmt != S16 ==> AllocatedSlots(fmt, nframes, channels) == (nframes * channels) / 2
    ensures fmt != S16 && nframes > 0 && channels > 0 ==> AllocatedSlots(fmt, nframes, channels) < nframes * channels
  {
    assert nframes * SizeOfShort * channels == 2 * (nframes * channels);
    if nframes > 0 && channels > 0 {
      assert nframes * channels >= nframes;
    }
  }

  /** Elements a direction needs: one per sample of the cycle. */
  function IntendedSlots(nframes: nat, channels: nat): nat
  {
    nframes * channels
  }

  /** Sample-rate negotiation, one call: the stored rate after it, or None
      when the call terminates the process. */
  function RateStep(stored: U32, rate: U32): Option<U32>
  {
    if stored == 0 then Some(rate)
    else if stored != rate then None
    else Some(stored)
  }

  /** A sequence of sample-rate callbacks, stopping at the first fatal one. */
  function Negotiate(stored: U32, rates: seq<U32>): Option<U32>
    decreases |rates|
  {
    if rates == [] then Some(stored)
    else match RateStep(stored, rates[0])
      case None => None
      case Some(s) => Negotiate(s, rates[1..])
  }

  /** Once a nonzero rate is stored it is fixed: later calls succeed exactly
      when they all bring that same rate. */
  lemma {:induction false} RateIsFixed(stored: U32, rates: seq<U32>)
    requires stored != 0
    ensures Negotiate(stored, rates) == if forall i :: 0 <= i < |rates| ==> rates[i] == stored
                                        then Some(stored) else None
  {
    if rates != [] {
      RateIsFixed(stored, rates[1..]);
      if rates[0] == stored {
        assert forall i :: 1 <= i < |rates| ==> rates[i] == rates[1..][i - 1];
      }
    }
  }

  /** From an unset rate, negotiation survives exactly when every rate after
      the first nonzero one repeats it. */
  lemma {:induction false} NegotiationSucceeds(rates: seq<U32>)
    ensures Negotiate(0, rates).Some? <==>
            forall i, j :: 0 <= i < j < |rates| && rates[i] != 0 ==> rates[j] == rates[i]
  {
    if rates != [] {
      var rest := rates[1..];
      assert forall i :: 1 <= i < |rates| ==> rates[i] == rest[i - 1];
      if rates[0] == 0 {
        NegotiationSucceeds(rest);
      } else {
        RateIsFixed(rates[0], rest);
        if Negotiate(0, rates).Some? {
          assert forall j :: 0 <= j < |rest| ==> rest[j] == rates[0];
          forall i, j | 0 <= i < j < |rates| && rates[i] != 0
            ensures rates[j] == rates[i]
          {
            assert rates[j] == rest[j - 1];
            if i > 0 { assert rates[i] == rest[i - 1]; }
          }
        } else {
          var j :| 0 <= j < |rest| && rest[j] != rates[0];
          assert rates[j + 1] != rates[0];
        }
      }
    }
  }

  /** The ALSA calls of one cycle, given what writei and readi returned. */
  function CycleCalls(config: Config, nframes: nat, sent: seq<int>, writeResult: int, readResult: int): seq<DeviceCall>
  {
    PlaybackCalls(config, nframes, sent, writeResult) + CaptureCalls(config, nframes, readResult)
  }

  /** The playback block's device calls. */
  function PlaybackCalls(config: Config, nframes: nat, sent: seq<int>, writeResult: int): seq<DeviceCall>
  {
    if config.playbackChannels > 0
    then [WriteI(nframes, sent)] + (if writeResult == -EPIPE then [Recover(-EPIPE)] else [])
    else []
  }

  /** The capture block's device calls. */
  function CaptureCalls(config: Config, nframes: nat, readResult: int): seq<DeviceCall>
  {
    if config.captureChannels > 0
    then [ReadI(nframes)] + (if readResult == -EPIPE then [Prepare] else [])
    else []
  }

  /** Each direction talks to its device only when it has channels, the
      other direction notwithstanding; a playback underrun is recovered and
      the write is not retried; a capture overrun is prepared and the read is
      not retried; playback comes before capture. */
  lemma CycleCallsShape(config: Config, nframes: nat, sent: seq<int>, writeResult: int, readResult: int)
    ensures var calls := CycleCalls(config, nframes, sent, writeResult, readResult);
      && ((exists i :: 0 <= i < |calls| && calls[i].WriteI?) <==> config.playbackChannels > 0)
      && (forall i, j :: 0 <= i < j < |calls| && calls[i].WriteI? ==> !calls[j].WriteI?)
      && ((exists i :: 0 <= i < |calls| && calls[i].Recover?) <==> config.playbackChannels > 0 && writeResult == -EPIPE)
      && ((exists i :: 0 <= i < |calls| && calls[i].ReadI?) <==> config.captureChannels > 0)
      && (forall i, j :: 0 <= i < j < |calls| && calls[i].ReadI? ==> !calls[j].ReadI?)
      && ((exists i :: 0 <= i < |calls| && calls[i].Prepare?) <==> config.captureChannels > 0 && readResult == -EPIPE)
      && (forall i, j :: (0 <= i < |calls| && 0 <= j < |calls| && (calls[i].WriteI? || calls[i].Recover?)
                          && (calls[j].ReadI? || calls[j].Prepare?)) ==> i < j)
  {
    var calls := CycleCalls(config, nframes, sent, writeResult, readResult);
    var played := PlaybackCalls(config, nframes, sent, writeResult);
    var captured := CaptureCalls(config, nframes, readResult);
    assert calls == played + captured;
    assert |played| <= 2 && |captured| <= 2;
    assert forall i :: 0 <= i < |played| ==> calls[i] == played[i] && (calls[i].WriteI? || calls[i].Recover?);
    assert forall i :: |played| <= i < |calls| ==> calls[i] == captured[i - |played|] && (calls[i].ReadI? || calls[i].Prepare?);
    if config.playbackChannels > 0 {
      assert calls[0].WriteI?;
      if writeResult == -EPIPE { assert calls[1].Recover?; }
    }
    if config.captureChannels > 0 {
      assert calls[|played|].ReadI?;
      if readResult == -EPIPE { assert calls[|played| + 1].Prepare?; }
    }
  }

  /** readi returned `readResult` and put `delivered` at the start of the
      capture buffer: nothing on an error, `readResult` frames otherwise. */
  ghost predicate ReadDelivers(readResult: int, delivered: seq<int>, nframes: nat, channels: nat, fmt: Format)
  {
    && readResult <= nframes
    && |delivered| == (if readResult > 0 then readResult * channels else 0)
    && (fmt == S16 ==> forall k :: 0 <= k < |delivered| ==> -0x8000 <= delivered[k] <= 0x7fff)
    && (fmt != S16 ==> forall k :: 0 <= k < |delivered| ==> -0x8000_0000 <= delivered[k] <= 0x7fff_ffff)
  }

  /** What readi stored fits in the cycle's share of the buffer. */
  lemma DeliveredFits(readResult: int, delivered: seq<int>, nframes: nat, channels: nat, fmt: Format)
    requires ReadDelivers(readResult, delivered, nframes, channels, fmt)
    ensures |delivered| <= nframes * channels
  {
    if readResult > 0 {
      assert (nframes - readResult) * channels >= 0;
    }
  }

  /** The codec of the 32-bit container: 24-bit for S24, 32-bit otherwise. */
  function Encoder32(fmt: Format): real -> Int32
  {
    if fmt == S24 then FloatToInt24 else FloatToInt32
  }

  function Decoder32(fmt: Format): Int32 -> real
  {
    if fmt == S24 then Int24ToFloat else Int32ToFloat
  }

  /** Capture data decoded to floats and encoded again is reproduced
      exactly at 16 and 32 bits. */
  lemma CaptureRoundTrip16(data: seq<Int16>, channels: nat, frames: nat)
    requires frames * channels <= |data|
    ensures Interleaved(FloatToInt16, Planar(Int16ToFloat, data, channels, frames), frames)
            == data[..frames * channels]
  {
    forall x: Int16 ensures FloatToInt16(Int16ToFloat(x)) == x {
      RoundTrip16(x);
    }
    EncodeAfterDecode(FloatToInt16, Int16ToFloat, data, channels, frames, frames);
  }

  lemma CaptureRoundTrip32(data: seq<Int32>, channels: nat, frames: nat)
    requires frames * channels <= |data|
    ensures Interleaved(FloatToInt32, Planar(Int32ToFloat, data, channels, frames), frames)
            == data[..frames * channels]
  {
    forall x: Int32 ensures FloatToInt32(Int32ToFloat(x)) == x {
      RoundTrip32(x);
    }
    EncodeAfterDecode(FloatToInt32, Int32ToFloat, data, channels, frames, frames);
  }

  /** With the 2^22 scale, a full-scale 24-bit sample in its 32-bit container
      decodes to almost 2.0 and does not survive encoding again. */
  lemma Scale24Headroom()
    ensures Int24ToFloat(0x7f_ffff) > 1.99
    ensures FloatToInt24(Int24ToFloat(0x7f_ffff)) == 4194303 != 0x7f_ffff
  {
  }

  /** The contents of a possibly unallocated buffer. */
  function Contents<T>(a: array?<T>): seq<T>
    reads a
  {
    if a == null then [] else a[..]
  }

  /** The contents of each port buffer. */
  function PortContents(ports: seq<array<real>>): (s: seq<seq<real>>)
    reads ports
    ensures |s| == |ports| && forall c :: 0 <= c < |ports| ==> s[c] == ports[c][..]
  {
    seq(|ports|, c requires 0 <= c < |ports| reads ports => ports[c][..])
  }

  /** snd_pcm_readi storing `delivered` at the start of the buffer. */
  method Deliver<T>(buf: array<T>, delivered: seq<T>)
    requires |delivered| <= buf.Length
    modifies buf
    ensures buf[..] == delivered + old(buf[..])[|delivered|..]
  {
    forall k | 0 <= k < |delivered| {
      buf[k] := delivered[k];
    }
  }

  /** Effect of the playback half of a cycle on the scratch buffer of the
    configured width, which held `before16` / `before32` and holds
    `after16` / `after32`: every sample of the cycle encoded at its
    interleaved slot, the slots beyond the cycle untouched. */
  ghost predicate PlaybackEncoded(config: Config, nframes: nat, playbackIn: seq<seq<real>>,
                                  after16: seq<Int16>, after32: seq<Int32>, before16: seq<Int16>, before32: seq<Int32>)
  {
    var slots := nframes * |playbackIn|;
    config.playbackChannels > 0 && Covers(playbackIn, nframes) && |playbackIn| == config.playbackChannels
      && (config.depth == S16 ==> slots <= |before16| == |after16|)
      && (config.depth != S16 ==> slots <= |before32| == |after32|) ==>
      if config.depth == S16
      then after16[..slots] == Interleaved(FloatToInt16, playbackIn, nframes)
           && after16[slots..] == before16[slots..]
      else after32[..slots] == Interleaved(Encoder32(config.depth), playbackIn, nframes)
           && after32[slots..] == before32[slots..]
  }

  /** Effect of the capture half of a cycle, from buffer contents `before16` /
    `before32` and port contents `portsBefore` to `after16` / `after32` and
    `ports`: the device data lands at the start of the scratch buffer of the
    configured width, and the ports are decoded from that buffer. */
  ghost predicate CaptureDecoded(config: Config, nframes: nat, readResult: int, delivered: seq<int>,
                                 ports: seq<seq<real>>, after16: seq<Int16>, after32: seq<Int32>,
                                 portsBefore: seq<seq<real>>, before16: seq<Int16>, before32: seq<Int32>)
  {
    config.captureChannels > 0 && |ports| == config.captureChannels && |delivered| <= nframes * |ports|
      && (config.depth == S16 ==> nframes * |ports| <= |before16| == |after16|)
      && (config.depth != S16 ==> nframes * |ports| <= |before32| == |after32|) ==>
      if config.depth == S16
      then after16 == delivered + before16[|delivered|..]
           && PortsDecoded(Int16ToFloat, nframes, readResult == -EPIPE, after16, ports, portsBefore)
      else after32 == delivered + before32[|delivered|..]
           && PortsDecoded(Decoder32(config.depth), nframes, readResult == -EPIPE, after32, ports, portsBefore)
  }

  /** CaptureDecoded from the effect on the buffer of the configured width. */
  lemma CaptureDecodedIntro(config: Config, nframes: nat, readResult: int, delivered: seq<int>,
                            ports: seq<seq<real>>, after16: seq<Int16>, after32: seq<Int32>,
                            portsBefore: seq<seq<real>>, before16: seq<Int16>, before32: seq<Int32>)
    requires config.depth == S16 ==>
               && |delivered| <= |before16| && after16 == delivered + before16[|delivered|..]
               && PortsDecoded(Int16ToFloat, nframes, readResult == -EPIPE, after16, ports, portsBefore)
    requires config.depth != S16 ==>
               && |delivered| <= |before32| && after32 == delivered + before32[|delivered|..]
               && PortsDecoded(Decoder32(config.depth), nframes, readResult == -EPIPE, after32, ports, portsBefore)
    ensures CaptureDecoded(config, nframes, readResult, delivered, ports, after16, after32, portsBefore, before16, before32)
  {
  }

  /** The ports after the decode step, from `portsBefore`: on an overrun
    they keep their contents; otherwise frame m of channel c is decoded from
    slot m*C + c of `data`.  Past the cycle nothing changes. */
  ghost predicate PortsDecoded<T>(decode: T -> real, nframes: nat, overrun: bool, data: seq<T>,
                                  ports: seq<seq<real>>, portsBefore: seq<seq<real>>)
  {
    nframes * |ports| <= |data| && |portsBefore| == |ports|
      && (forall c :: 0 <= c < |ports| ==> nframes <= |portsBefore[c]| == |ports[c]|) ==>
      && (overrun ==> ports == portsBefore)
      && (!overrun ==>
            forall c, m :: 0 <= c < |ports| && 0 <= m < nframes ==>
              ports[c][m] == Sample(decode, data, |ports|, nframes, m, c))
      && (forall c, m :: 0 <= c < |ports| && nframes <= m < |ports[c]| ==> ports[c][m] == portsBefore[c][m])
  }

  /** The capture block for one sample width: the read stores `delivered`
    at the start of `buf`; unless it overran, the cycle is decoded into the
    ports. */
  method ReadAndDecode<T>(decode: T -> real, buf: array<T>, delivered: seq<T>, nframes: nat,
                          ports: seq<array<real>>, overrun: bool)
    requires |delivered| <= nframes * |ports| <= buf.Length
    requires forall c :: 0 <= c < |ports| ==> nframes <= ports[c].Length
    requires forall i, j :: 0 <= i < j < |ports| ==> ports[i] != ports[j]
    requires forall c :: 0 <= c < |ports| ==> (ports[c] as object) != buf
    modifies buf, ports
    ensures buf[..] == delivered + old(buf[..])[|delivered|..]
    ensures PortsDecoded(decode, nframes, overrun, buf[..], PortContents(ports), old(PortContents(ports)))
  {
    ghost var portsBefore := PortContents(ports);
    Deliver(buf, delivered);
    assert PortContents(ports) == portsBefore;
    if !overrun {
      DecodeInterleaved(decode, buf, nframes, ports);
    }
  }

  class Session {
    const config: Config
    var bufferSize: U32
    var sampleRate: U32
    var playback16: array?<Int16>
    var capture16: array?<Int16>
    var playback32: array?<Int32>   // also 24-bit
    var capture32: array?<Int32>    // also 24-bit

    /** The two buffers of one width are separate allocations. */
    ghost predicate Valid()
      reads this
    {
      && (playback16 != null && capture16 != null ==> playback16 != capture16)
      && (playback32 != null && capture32 != null ==> playback32 != capture32)
    }

    /** The playback buffer of the configured format has a slot for every
      sample of an nframes cycle. */
    ghost predicate PlaybackReady(nframes: nat)
      reads this
    {
      config.playbackChannels > 0 ==>
        if config.depth == S16
        then playback16 != null && IntendedSlots(nframes, config.playbackChannels) <= playback16.Length
        else playback32 != null && IntendedSlots(nframes, config.playbackChannels) <= playback32.Length
    }

    ghost predicate CaptureReady(nframes: nat)
      reads this
    {
      config.captureChannels > 0 ==>
        if config.depth == S16
        then capture16 != null && IntendedSlots(nframes, config.captureChannels) <= capture16.Length
        else capture32 != null && IntendedSlots(nframes, config.captureChannels) <= capture32.Length
    }

    /** The scratch buffer the playback half of a cycle writes. */
    function PlaybackScratch(): set<object>
      reads this
    {
      if config.playbackChannels <= 0 then {}
      else if config.depth == S16 then (if playback16 == null then {} else {playback16 as object})
      else (if playback32 == null then {} else {playback32 as object})
    }

    /** The scratch buffer the capture half of a cycle writes. */
    function CaptureScratch(): set<object>
      reads this
    {
      if config.captureChannels <= 0 then {}
      else if config.depth == S16 then (if capture16 == null then {} else {capture16 as object})
      else (if capture32 == null then {} else {capture32 as object})
    }

    /** The interleaved samples a cycle of nframes hands to snd_pcm_writei. */
    function Sent(nframes: nat): seq<int>
      reads this, playback16, playback32
      requires PlaybackReady(nframes)
    {
      if config.playbackChannels <= 0 then []
      else if config.depth == S16 then playback16[..IntendedSlots(nframes, config.playbackChannels)]
      else playback32[..IntendedSlots(nframes, config.playbackChannels)]
    }

    /** Globals at program start: no rate, no buffer size, no buffers. */
    constructor (config: Config)
      ensures Valid()
      ensures this.config == config && bufferSize == 0 && sampleRate == 0
      ensures playback16 == null && capture16 == null && playback32 == null && capture32 == null
    {
      this.config := config;
      bufferSize, sampleRate := 0, 0;
      playback16, capture16, playback32, capture32 := null, null, null, null;
    }

    /** jack_new_buffer, as written: record the size, then replace the
      buffers of the active directions at the current width, sized
      nframes * sizeof(short) * channels bytes; exit on any other format. */
    method NewBuffer(nframes: U32) returns (out: Outcome)
      requires Valid()
      modifies this
      ensures Valid()
      ensures bufferSize == nframes && sampleRate == old(sampleRate)
      ensures out == if config.depth.OtherFormat? then Exited(EXIT_FAILURE) else Returned(0)
      ensures if config.depth == S16 && config.playbackChannels > 0
              then fresh(playback16) && playback16.Length == AllocatedSlots(S16, nframes, config.playbackChannels)
              else playback16 == old(playback16)
      ensures if config.depth == S16 && config.captureChannels > 0
              then fresh(capture16) && capture16.Length == AllocatedSlots(S16, nframes, config.captureChannels)
              else capture16 == old(capture16)
      ensures if (config.depth == S24 || config.depth == S32) && config.playbackChannels > 0
              then fresh(playback32) && playback32.Length == AllocatedSlots(config.depth, nframes, config.playbackChannels)
              else playback32 == old(playback32)
      ensures if (config.depth == S24 || config.depth == S32) && config.captureChannels > 0
              then fresh(capture32) && capture32.Length == AllocatedSlots(config.depth, nframes, config.captureChannels)
              else capture32 == old(capture32)
      // a 16-bit cycle of this size can run; a 24/32-bit one cannot
      ensures config.depth == S16 ==> PlaybackReady(nframes) && CaptureReady(nframes)
      ensures (config.depth == S24 || config.depth == S32) && nframes > 0 ==>
                (config.playbackChannels > 0 ==> !PlaybackReady(nframes))
                && (config.captureChannels > 0 ==> !CaptureReady(nframes))
    {
      AllocationAsWritten(config.depth, nframes, if config.playbackChannels > 0 then config.playbackChannels else 0);
      AllocationAsWritten(config.depth, nframes, if config.captureChannels > 0 then config.captureChannels else 0);
      bufferSize := nframes;
      if config.depth == S16 {
        if config.playbackChannels > 0 {
          playback16 := new Int16[AllocatedSlots(S16, nframes, config.playbackChannels)];
        }
        if config.captureChannels > 0 {
          capture16 := new Int16[AllocatedSlots(S16, nframes, config.captureChannels)];
        }
      } else if config.depth == S24 || config.depth == S32 {
        if config.playbackChannels > 0 {
          playback32 := new Int32[AllocatedSlots(config.depth, nframes, config.playbackChannels)];
        }
        if config.captureChannels > 0 {
          capture32 := new Int32[AllocatedSlots(config.depth, nframes, config.captureChannels)];
        }
      } else {
        return Exited(EXIT_FAILURE);
      }
      return Returned(0);
    }

    /** jack_new_buffer with each buffer sized one element per sample, so
      that the next cycle at this size can run. */
    method NewBufferIntended(nframes: U32) returns (out: Outcome)
      requires Valid()
      modifies this
      ensures Valid()
      ensures bufferSize == nframes && sampleRate == old(sampleRate)
      ensures out == if config.depth.OtherFormat? then Exited(EXIT_FAILURE) else Returned(0)
      ensures if config.depth == S16 && config.playbackChannels > 0
              then fresh(playback16) && playback16.Length == IntendedSlots(nframes, config.playbackChannels)
              else playback16 == old(playback16)
      ensures if config.depth == S16 && config.captureChannels > 0
              then fresh(capture16) && capture16.Length == IntendedSlots(nframes, config.captureChannels)
              else capture16 == old(capture16)
      ensures if (config.depth == S24 || config.depth == S32) && config.playbackChannels > 0
              then fresh(playback32) && playback32.Length == IntendedSlots(nframes, config.playbackChannels)
              else playback32 == old(playback32)
      ensures if (config.depth == S24 || config.depth == S32) && config.captureChannels > 0
              then fresh(capture32) && capture32.Length == IntendedSlots(nframes, config.captureChannels)
              else capture32 == old(capture32)
      // the next cycle of this size can run at every supported format
      ensures !config.depth.OtherFormat? ==> PlaybackReady(nframes) && CaptureReady(nframes)
    {
      bufferSize := nframes;
      if config.depth == S16 {
        if config.playbackChannels > 0 {
          playback16 := new Int16[IntendedSlots(nframes, config.playbackChannels)];
        }
        if config.captureChannels > 0 {
          capture16 := new Int16[IntendedSlots(nframes, config.captureChannels)];
        }
      } else if config.depth == S24 || config.depth == S32 {
        if config.playbackChannels > 0 {
          playback32 := new Int32[IntendedSlots(nframes, config.playbackChannels)];
        }
        if config.captureChannels > 0 {
          capture32 := new Int32[IntendedSlots(nframes, config.captureChannels)];
        }
      } else {
        return Exited(EXIT_FAILURE);
      }
      return Returned(0);
    }

    /** jack_sample_rate: store the first rate, accept the same rate again,
      exit on a different one.  The accepting path returns no value, so its
      result is left unspecified. */
    method SampleRate(newRate: U32) returns (out: Outcome)
      modifies this`sampleRate
      ensures old(sampleRate) == 0 ==> sampleRate == newRate && out == Returned(0)
      ensures old(sampleRate) != 0 ==> sampleRate == old(sampleRate)
      ensures old(sampleRate) != 0 && newRate != old(sampleRate) ==> out == Exited(EXIT_FAILURE)
      ensures old(sampleRate) != 0 && newRate == old(sampleRate) ==> out.Returned?
      ensures out.Exited? <==> RateStep(old(sampleRate), newRate) == None
      ensures out.Returned? ==> RateStep(old(sampleRate), newRate) == Some(sampleRate)
    {
      if sampleRate == 0 {
        sampleRate := newRate;
        return Returned(0);
      }
      if sampleRate != newRate {
        return Exited(EXIT_FAILURE);
      }
      var unspecified: int :| true;
      out := Returned(unspecified);
    }

    /** The playback block of jack_process: encode and interleave, one
      snd_pcm_writei, snd_pcm_recover when it returned -EPIPE. */
    method PlaybackCycle(nframes: U32, playbackIn: seq<seq<real>>, writeResult: int)
      returns (calls: seq<DeviceCall>)
      requires PlaybackReady(nframes)
      requires config.playbackChannels > 0 ==>
                 |playbackIn| == config.playbackChannels && Covers(playbackIn, nframes)
      modifies PlaybackScratch()
      ensures PlaybackEncoded(config, nframes, playbackIn, Contents(playback16), Contents(playback32),
                              old(Contents(playback16)), old(Contents(playback32)))
      ensures calls == PlaybackCalls(config, nframes, Sent(nframes), writeResult)
    {
      calls := [];
      if config.playbackChannels > 0 {
        if config.depth == S16 {
          EncodeInterleaved(FloatToInt16, playbackIn, nframes, playback16);
        } else {
          EncodeInterleaved(Encoder32(config.depth), playbackIn, nframes, playback32);
        }
        var res := writeResult;
        calls := [WriteI(nframes, Sent(nframes))];
        if res == -EPIPE {
          calls := calls + [Recover(res)];
        }
      }
    }

    /** The capture block's buffer and port work at 16 bits. */
    method Capture16(nframes: U32, capturePorts: seq<array<real>>, readResult: int, delivered: seq<int>)
      requires config.captureChannels > 0 && config.depth == S16 && CaptureReady(nframes)
      requires |capturePorts| == config.captureChannels
      requires forall c :: 0 <= c < |capturePorts| ==> nframes <= capturePorts[c].Length
      requires forall i, j :: 0 <= i < j < |capturePorts| ==> capturePorts[i] != capturePorts[j]
      requires ReadDelivers(readResult, delivered, nframes, config.captureChannels, config.depth)
      modifies capture16, capturePorts
      ensures CaptureDecoded(config, nframes, readResult, delivered,
                             PortContents(capturePorts), Contents(capture16), Contents(capture32),
                             old(PortContents(capturePorts)), old(Contents(capture16)), old(Contents(capture32)))
    {
      DeliveredFits(readResult, delivered, nframes, config.captureChannels, config.depth);
      ghost var portsBefore, before16, before32 := PortContents(capturePorts), Contents(capture16), Contents(capture32);
      ReadAndDecode(Int16ToFloat, capture16, delivered, nframes, capturePorts, readResult == -EPIPE);
      CaptureDecodedIntro(config, nframes, readResult, delivered, PortContents(capturePorts),
                          Contents(capture16), Contents(capture32), portsBefore, before16, before32);
    }

    /** The capture block's buffer and port work at 24 and 32 bits. */
    method Capture32(nframes: U32, capturePorts: seq<array<real>>, readResult: int, delivered: seq<int>)
      requires config.captureChannels > 0 && config.depth != S16 && CaptureReady(nframes)
      requires |capturePorts| == config.captureChannels
      requires forall c :: 0 <= c < |capturePorts| ==> nframes <= capturePorts[c].Length
      requires forall i, j :: 0 <= i < j < |capturePorts| ==> capturePorts[i] != capturePorts[j]
      requires ReadDelivers(readResult, delivered, nframes, config.captureChannels, config.depth)
      modifies capture32, capturePorts
      ensures CaptureDecoded(config, nframes, readResult, delivered,
                             PortContents(capturePorts), Contents(capture16), Contents(capture32),
                             old(PortContents(capturePorts)), old(Contents(capture16)), old(Contents(capture32)))
    {
      DeliveredFits(readResult, delivered, nframes, config.captureChannels, config.depth);
      ghost var portsBefore, before16, before32 := PortContents(capturePorts), Contents(capture16), Contents(capture32);
      ReadAndDecode(Decoder32(config.depth), capture32, delivered, nframes, capturePorts, readResult == -EPIPE);
      CaptureDecodedIntro(config, nframes, readResult, delivered, PortContents(capturePorts),
                          Contents(capture16), Contents(capture32), portsBefore, before16, before32);
    }

    /** The capture block of jack_process: one snd_pcm_readi, which stored
      `delivered`; snd_pcm_prepare on -EPIPE, and on any other result a
      decode of the whole cycle's worth of the scratch buffer. */
    method CaptureCycle(nframes: U32, capturePorts: seq<array<real>>, readResult: int, delivered: seq<int>)
      returns (calls: seq<DeviceCall>)
      requires CaptureReady(nframes)
      requires config.captureChannels > 0 ==>
                 && |capturePorts| == config.captureChannels
                 && (forall c :: 0 <= c < |capturePorts| ==> nframes <= capturePorts[c].Length)
                 && (forall i, j :: 0 <= i < j < |capturePorts| ==> capturePorts[i] != capturePorts[j])
                 && ReadDelivers(readResult, delivered, nframes, config.captureChannels, config.depth)
      modifies CaptureScratch(), capturePorts
      ensures CaptureDecoded(config, nframes, readResult, delivered,
                             PortContents(capturePorts), Contents(capture16), Contents(capture32),
                             old(PortContents(capturePorts)), old(Contents(capture16)), old(Contents(capture32)))
      ensures config.captureChannels <= 0 ==> unchanged(capturePorts)
      ensures calls == CaptureCalls(config, nframes, readResult)
    {
      calls := [];
      if config.captureChannels > 0 {
        if config.depth == S16 {
          Capture16(nframes, capturePorts, readResult, delivered);
        } else {
          Capture32(nframes, capturePorts, readResult, delivered);
        }
        calls := [ReadI(nframes)];
        if readResult == -EPIPE {
          calls := calls + [Prepare];
        }
      }
    }

    /** jack_process.  `playbackIn` are this cycle's JACK input port buffers
      and `capturePorts` its JACK output port buffers; `writeResult` is what
      snd_pcm_writei returned, `readResult` what snd_pcm_readi returned and
      `delivered` the samples it stored.  The two directions run one after
      the other, each only when it has channels. */
    method Process(nframes: U32, playbackIn: seq<seq<real>>, capturePorts: seq<array<real>>,
                   writeResult: int, readResult: int, delivered: seq<int>)
      returns (ret: int, calls: seq<DeviceCall>)
      requires Valid() && PlaybackReady(nframes) && CaptureReady(nframes)
      requires config.playbackChannels > 0 ==>
                 |playbackIn| == config.playbackChannels && Covers(playbackIn, nframes)
      requires config.captureChannels > 0 ==>
                 && |capturePorts| == config.captureChannels
                 && (forall c :: 0 <= c < |capturePorts| ==> nframes <= capturePorts[c].Length)
                 && (forall i, j :: 0 <= i < j < |capturePorts| ==> capturePorts[i] != capturePorts[j])
                 && ReadDelivers(readResult, delivered, nframes, config.captureChannels, config.depth)
      modifies PlaybackScratch(), CaptureScratch(), capturePorts
      ensures ret == 0
      ensures calls == CycleCalls(config, nframes, Sent(nframes), writeResult, readResult)
      ensures PlaybackEncoded(config, nframes, playbackIn, Contents(playback16), Contents(playback32),
                              old(Contents(playback16)), old(Contents(playback32)))
      ensures CaptureDecoded(config, nframes, readResult, delivered,
                             PortContents(capturePorts), Contents(capture16), Contents(capture32),
                             old(PortContents(capturePorts)), old(Contents(capture16)), old(Contents(capture32)))
      ensures config.captureChannels <= 0 ==> unchanged(capturePorts)
    {
      ghost var portsBefore, before16, before32 := PortContents(capturePorts), Contents(capture16), Contents(capture32);
      var played := PlaybackCycle(nframes, playbackIn, writeResult);
      assert PortContents(capturePorts) == portsBefore;
      assert Contents(capture16) == before16 && Contents(capture32) == before32;
      var captured := CaptureCycle(nframes, capturePorts, readResult, delivered);
      ret := 0;
      calls := played + captured;
    }
  }
}
