# jacktoalsa in Dafny

A model of the bridge in `src/jacktoalsa.c`, which forwards audio between a
JACK client and ALSA PCM devices. JACK calls the bridge once per cycle with
planar float port buffers. The bridge converts them to interleaved
fixed-point samples, writes them to the ALSA playback device, reads the
capture device, and decodes what it read into the JACK output ports. The
model covers:

- the sample codec (`float_to_int16/24/32`, `int16/24/32_to_float`) over
  `real`, in `codec.dfy` (module `SampleCodec`);
- the interleave and deinterleave loops of `jack_process`, as generic
  methods over arrays proved against a specification function, in
  `interleave.dfy` (module `Interleave`);
- the JACK callbacks `jack_process`, `jack_new_buffer` and
  `jack_sample_rate` as methods of one `Session` object that holds the
  globals `buffer_size`, `sample_rate` and the four scratch buffers, in
  `session.dfy` (module `Bridge`). The configuration is kept in
  `settings.dfy` (module `Settings`);
- `catch_arg` and the argument loop of `main`, in `cmdline.dfy` (module
  `CommandLine`).

ALSA is reached only through abstract inputs:

- what `snd_pcm_writei` returned;
- what `snd_pcm_readi` returned, together with the samples it stored at the
  start of the capture buffer.

`Process` returns the list of ALSA calls it made (`WriteI`, `Recover`,
`ReadI`, `Prepare`). `EPIPE` is 32, as on Linux.

The model keeps these behaviours of the code:

- After a playback `-EPIPE` the code calls `snd_pcm_recover` and does not
  write again.
- The capture side decodes for every read result other than `-EPIPE`. This
  includes other errors and short reads, in which case stale buffer
  contents are decoded.
- Conversion floors; it does not round.
- The 24-bit scale is 2^22, not 2^23. `Bridge.Scale24Headroom` shows what
  this does to a full-scale 24-bit sample.

## Model

| member | source | states |
|---|---|---|
| `SampleCodec.FloatToInt16` | src/jacktoalsa.c:53-57 | result is 32767 for v >= 1, -32768 for v <= -1, otherwise the floor of v*32768 (r <= v*32768 < r+1); always an int16 |
| `SampleCodec.FloatToInt24` | src/jacktoalsa.c:59-63 | result in [-4194304, 4194303]: saturates at both ends, otherwise the floor of v*2^22 |
| `SampleCodec.FloatToInt32` | src/jacktoalsa.c:65-69 | saturates to 2^31-1 / -2^31, otherwise the floor of v*2^31; always an int32 |
| `SampleCodec.Int16ToFloat` | src/jacktoalsa.c:71 | result lies in [-1, 1) and times 32768 gives back the sample |
| `SampleCodec.Int24ToFloat` | src/jacktoalsa.c:72 | result lies in [-1, 1) for samples of the 2^22 range, but only in [-512, 512) for a full int32 container; times 2^22 gives back the sample |
| `SampleCodec.Int32ToFloat` | src/jacktoalsa.c:73 | result lies in [-1, 1) and times 2^31 gives back the sample |
| `SampleCodec.RoundTrip16` | src/jacktoalsa.c:53-71 | float_to_int16(int16_to_float(x)) == x for every int16, -32768 included via the saturating branch |
| `SampleCodec.RoundTrip24` | src/jacktoalsa.c:59-72 | float_to_int24(int24_to_float(x)) == x for every x in [-2^22, 2^22-1] |
| `SampleCodec.RoundTrip32` | src/jacktoalsa.c:65-73 | float_to_int32(int32_to_float(x)) == x for every int32 |
| `SampleCodec.Monotone` | src/jacktoalsa.c:53-69 | each float_to_intN is non-decreasing |
| `SampleCodec.QuantisationError16` | src/jacktoalsa.c:53-71 | inside (-1, 1), decoding the encoded sample loses less than one step (1/32768) and never rounds up |
| `Settings.Default` | src/jacktoalsa.c:28-47 | the configuration before any option: two channels both ways, S32 samples, the "default" ALSA card for both directions and the client name "meta_jacktoalsa" |
| `Interleave.ScaledOrder` | src/jacktoalsa.c:86-88 | with C > 0 channels, the loop test bufval < nframes*C on bufval == n*C is exactly n < nframes |
| `Interleave.InterleavedAt` | src/jacktoalsa.c:86-97 | in the interleaved buffer, slot n*C + c lies below nframes*C and holds encode(planar[c][n]) |
| `Interleave.EncodeInterleaved` | src/jacktoalsa.c:86-97 | after the encode loop, buf[..nframes*C] is the interleaved encoding of the planar input and every slot from nframes*C on is unchanged |
| `Interleave.DecodeInterleaved` | src/jacktoalsa.c:123-134 | after the decode loop, port c sample n == decode(buf[n*C + c]) for n < nframes and c < C; later samples of each port are unchanged |
| `Interleave.DecodeAfterEncode` | src/jacktoalsa.c:86-134 | decoding an interleaved encoding gives each sample back as decode(encode(v)) at the same channel and frame |
| `Interleave.EncodeAfterDecode` | src/jacktoalsa.c:86-134 | when encode undoes decode, encoding the decoded channels reproduces the interleaved data exactly |
| `Bridge.AllocationAsWritten` | src/jacktoalsa.c:146-165 | the nframes*sizeof(short)*C-byte allocation holds nframes*C slots at 16 bits, but only (nframes*C)/2 int32 slots at 24/32 bits, which is fewer than the loop writes whenever nframes*C > 0 |
| `Bridge.RateIsFixed` | src/jacktoalsa.c:174-184 | once a nonzero rate is stored, a run of rate callbacks survives exactly when every one of them brings that rate, and the rate stays the same |
| `Bridge.NegotiationSucceeds` | src/jacktoalsa.c:174-184 | starting from no rate, a run of rate callbacks survives exactly when every rate after the first nonzero one repeats it |
| `Bridge.CycleCallsShape` | src/jacktoalsa.c:80-121 | a cycle writes once iff playback has channels and reads once iff capture has channels, independently of each other. It calls recover exactly when the write returned -EPIPE and prepare exactly when the read did. Nothing is written or read twice, and playback calls come before capture calls |
| `Bridge.CaptureRoundTrip16` | src/jacktoalsa.c:91-128 | 16-bit capture data that is decoded to the ports and encoded again is reproduced exactly |
| `Bridge.CaptureRoundTrip32` | src/jacktoalsa.c:95-132 | the same for 32-bit data |
| `Bridge.Scale24Headroom` | src/jacktoalsa.c:59-72 | a full-scale true-24-bit sample (2^23-1) decodes to more than 1.99 and encodes back to 4194303, not to itself |
| `Bridge.ReadAndDecode` | src/jacktoalsa.c:115-134 | the capture block at one sample width: the data readi stored lands at the start of the buffer, the rest of the buffer is unchanged. After an overrun the ports keep their contents. Otherwise port c frame m is decoded from slot m*C + c, and port samples past the cycle are unchanged |
| `Bridge.Session.constructor` | src/jacktoalsa.c:35-51 | a session starts with rate 0, buffer size 0 and no scratch buffers |
| `Bridge.Session.NewBuffer` | src/jacktoalsa.c:141-172 | buffer_size becomes nframes. At the current width, only the buffers of directions with channels > 0 are replaced by fresh ones of the allocated size; the rest stay the same. Any other format exits with failure. Afterwards a 16-bit cycle can run, but a 24/32-bit cycle of nframes > 0 cannot |
| `Bridge.Session.NewBufferIntended` | src/jacktoalsa.c:156-165 | the resize with one element per sample: buffer_size becomes nframes, and at the current width exactly the buffers of directions with channels > 0 are replaced by fresh ones of nframes*C elements; the rest stay. Afterwards the next cycle can run at every supported format |
| `Bridge.Session.SampleRate` | src/jacktoalsa.c:174-184 | rate 0 stores the new rate and returns 0. The same rate again changes nothing and returns an unspecified value. A different rate exits with failure and leaves the rate as it was |
| `Bridge.Session.PlaybackCycle` | src/jacktoalsa.c:80-106 | with channels, the playback buffer of the configured width holds the interleaved encoding of the input ports. writei is called once with it, and recover follows only on -EPIPE |
| `Bridge.Session.Capture16` | src/jacktoalsa.c:115-128 | at 16 bits, readi's data lands at the start of the int16 capture buffer and the ports are decoded from it with int16_to_float, or kept on -EPIPE |
| `Bridge.Session.Capture32` | src/jacktoalsa.c:117-132 | at 24 and 32 bits, the same on the int32 capture buffer with int24_to_float or int32_to_float |
| `Bridge.Session.CaptureCycle` | src/jacktoalsa.c:109-136 | with channels, readi is called once and its data lands at the start of the capture buffer. On -EPIPE, prepare is called and the ports are unchanged. On any other result, each port sample is decoded from its interleaved slot |
| `Bridge.Session.Process` | src/jacktoalsa.c:75-139 | returns 0. Its ALSA calls are the playback calls followed by the capture calls, and it has both halves' effects on buffers and ports |
| `CommandLine.CStr` | src/jacktoalsa.c:403-404 | the C string in a buffer is the NUL-free prefix up to the first NUL |
| `CommandLine.CatchArg` | src/jacktoalsa.c:371-388 | returns true iff prefix is a prefix of arg. If not, target is untouched. If so, target starts with the rest of arg after the prefix and a NUL, nothing after that changes, and it reads back as that suffix. The copy has no length bound |
| `CommandLine.ArgvalOverflow` | src/jacktoalsa.c:379-402 | a "--jack-client=" argument with a 128-character value matches, and its copy needs more than argval's 128 bytes |
| `CommandLine.CatchArgBounded` | src/jacktoalsa.c:379-385 | the guarded copy: returns true iff prefix matches. On a match, target reads back as the first Length-1 characters of the suffix, for an argument of any length |
| `CommandLine.ToShort` | src/jacktoalsa.c:420-427 | storing atoi's int into a short keeps it modulo 2^16 |
| `CommandLine.ParseArgsAppend` | src/jacktoalsa.c:394-455 | parsing xs + ys parses xs and then, unless that stopped, ys from the resulting configuration |
| `CommandLine.LastPortsNumWins` | src/jacktoalsa.c:419-422 | a trailing "--ports-num=" sets both channel counts to its value, overriding earlier ones |
| `CommandLine.LastAlsaCardWins` | src/jacktoalsa.c:402-405 | a trailing "--alsa-card=" sets both card names to its value, overriding earlier ones |
| `CommandLine.BitDepthAccepted` | src/jacktoalsa.c:431-446 | "--bit-depth=" is accepted iff its value is 32, 24 or 16, which select S32, S24 and S16; any other value stops with failure |
| `CommandLine.HelpStops` | src/jacktoalsa.c:397-399 | "-h" or "--help" after accepted arguments stops with success, whatever follows |
| `CommandLine.UnknownFails` | src/jacktoalsa.c:448-453 | an argument that is not a help flag and has no known prefix stops with failure, whatever follows |
| `CommandLine.ParsedFormatSupported` | src/jacktoalsa.c:431-445 | the command line only ever selects a format the resize callback accepts. It stops only with EXIT_SUCCESS or EXIT_FAILURE |
| `CommandLine.DispatchArg` | src/jacktoalsa.c:396-453 | one pass of the loop body (help test, then the prefixes in order) has exactly the effect of the fold step |
| `CommandLine.ParseCommandLine` | src/jacktoalsa.c:390-455 | the loop over argv[1..] ends in the configuration, or the exit status, of the fold from the defaults |

## Left out

- `init_jack` and `init_alsa`: client opening, port registration, callback binding, `snd_pcm_open` and `snd_pcm_set_params`. These are library calls in sequence. Open and parameter failures are only logged (src/jacktoalsa.c:291-300).
- What ALSA and JACK do inside `snd_pcm_writei`, `snd_pcm_readi`, `snd_pcm_recover`, `snd_pcm_prepare` and `jack_port_get_buffer`. Their results, and the data readi delivers, are inputs of `Process`.
- `SampleCodec.RoundTrip32`: holds in real arithmetic only. A C `float` has a 24-bit mantissa, so `int32_to_float` loses low bits and the 32-bit round trip fails for large samples. All float rounding and `floorf` precision are idealised as `real` and `.Floor`.
- `Bridge.Session.Process`: `nframes * C` is computed in 32-bit arithmetic in C and is assumed not to overflow.
- `Bridge.Session.NewBuffer`: a failed `malloc` (never checked in the source) and the `free` of the old buffer are not modelled. A new buffer is a fresh array.
- The `usage` text, all `fprintf` logging, and `sleep(-1)` in `main`. The call from `main` to `init_jack` after parsing is also left out.
- `atoi` is a parameter of the parser with no interpretation. `strlen` is sequence length, and `strcpy` of argval is `CStr`.
- `CommandLine.ParseCommandLine`, `CommandLine.DispatchArg`, `CommandLine.Dispatch` and `CommandLine.ArgValue`: use the bounded catch, so option values longer than 127 characters are truncated. The code as written overflows `argval` instead (see Findings). The config holds strings, so the 128-byte destination buffers are not modelled.
- Concurrency between JACK callbacks: JACK serialises them, so they are sequential method calls on one session.

## Findings

| source | as written | input that shows it | evidently intended | confidence | as-written member | corrected member |
|---|---|---|---|---|---|---|
| src/jacktoalsa.c:159,164 | 24/32-bit scratch buffers get `nframes*sizeof(short)*C` bytes, which is (nframes*C)/2 int32 slots, but the encode loop writes nframes*C of them | S32, 2 playback channels, nframes = 256: 256 slots are allocated and 512 are written | allocate `nframes*sizeof(int32_t)*C` bytes | high (not executed) | `Bridge.Session.NewBuffer`, `Bridge.AllocationAsWritten` | `Bridge.Session.NewBufferIntended` |
| src/jacktoalsa.c:379-385 | the guard compares against `sizeof(target)`, which is the size of a pointer, and its NUL is overwritten at once. The copy into the 128-byte `argval` is unbounded | `--jack-client=` followed by 128 characters: 129 bytes are written into argval | stop at the buffer's last byte and terminate there | high (not executed) | `CommandLine.CatchArg`, `CommandLine.ArgvalOverflow` | `CommandLine.CatchArgBounded` |
