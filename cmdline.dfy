/** Command-line handling: the prefix matcher catch_arg and the option
    dispatch loop of main, which fills in the configuration. */
module CommandLine {
  import opened SampleCodec
  import opened Settings

  /** Size of main's argval buffer and of the buffers it is copied into. */
  const ArgvalSize: nat := 128
  /** sizeof(char *) on a 64-bit target: what catch_arg's guard measures. */
  const PointerSize: nat := 8

  const AlsaCardPrefix: string := "--alsa-card="
  const AlsaCardPlaybackPrefix: string := "--alsa-card-playback="
  const AlsaCardCapturePrefix: string := "--alsa-card-capture="
  const JackClientPrefix: string := "--jack-client="
  const PortsNumPrefix: string := "--ports-num="
  const PlaybackPortsPrefix: string := "--playback-ports="
  const CapturePortsPrefix: string := "--capture-ports="
  const BitDepthPrefix: string := "--bit-depth="

  /** A C string's characters: no NUL before its terminator. */
  predicate NoNul(s: string)
  {
    forall i :: 0 <= i < |s| ==> s[i] != '\0'
  }

  /** The C string held in a char buffer: the characters before the first
      NUL (all of them if there is none). */
  function CStr(buf: seq<char>): (s: string)
    ensures NoNul(s) && s <= buf
    ensures |s| < |buf| ==> buf[|s|] == '\0'
  {
    if buf == [] || buf[0] == '\0' then [] else [buf[0]] + CStr(buf[1..])
  }

  /** A string written with its terminator reads back as itself. */
  lemma {:induction false} CStrOfTerminated(s: string, rest: seq<char>)
    requires NoNul(s)
    ensures CStr(s + ['\0'] + rest) == s
  {
    if s != [] {
      assert (s + ['\0'] + rest)[1..] == s[1..] + ['\0'] + rest;
      CStrOfTerminated(s[1..], rest);
    }
  }

  /** At most k characters of s. */
  function Truncate(s: string, k: nat): (r: string)
    ensures r <= s && |r| == if |s| <= k then |s| else k
  {
    if |s| <= k then s else s[..k]
  }

  /** Everything catch_arg copies for a matching argument, terminator
      included, fits in a buffer of the given size. */
  predicate CopyFits(size: nat, prefix: string, arg: string)
  {
    prefix <= arg ==> |arg| - |prefix| < size
  }

  /** The matching part of catch_arg: no shorter than the prefix, and equal
      to it at every index below its length. */
  method StartsWith(prefix: string, arg: string) returns (b: bool)
    ensures b <==> prefix <= arg
  {
    if |arg| < |prefix| {
      return false;
    }
    var i := 0;
    while i < |prefix|
      invariant 0 <= i <= |prefix|
      invariant arg[..i] == prefix[..i]
    {
      if arg[i] != prefix[i] {
        return false;
      }
      i := i + 1;
    }
    assert arg[..|prefix|] == prefix;
    return true;
  }

  /** catch_arg, as written: on a match, copy the rest of `arg` and its NUL
      into `target`.  The guard meant to stop at the end of `target` measures
      a pointer and its NUL is overwritten at once, so the copy is bounded
      only by the caller: `target` must have room for it. */
  method CatchArg(target: array<char>, prefix: string, arg: string) returns (caught: bool)
    requires NoNul(prefix) && NoNul(arg)
    requires CopyFits(target.Length, prefix, arg)
    modifies target
    ensures caught <==> prefix <= arg
    ensures !caught ==> target[..] == old(target[..])
    ensures caught ==>
              var k := |arg| - |prefix|;
              target[..k + 1] == arg[|prefix|..] + ['\0'] && target[k + 1..] == old(target[k + 1..])
    ensures caught ==> CStr(target[..]) == arg[|prefix|..]
  {
    caught := StartsWith(prefix, arg);
    if !caught {
      return;
    }
    var str := arg + ['\0'];
    var n, i := |prefix|, 0;
    while true
      invariant n == i + |prefix| <= |arg|
      invariant target[..i] == arg[|prefix|..n]
      invariant target[i..] == old(target[i..])
      decreases |arg| - n
    {
      if i >= PointerSize - 1 {
        target[i] := '\0';
      }
      target[i] := str[n];
      assert target[..i + 1] == target[..i] + [str[n]];
      if str[n] == '\0' {
        break;
      }
      assert target[..i + 1] == arg[|prefix|..n + 1];
      i, n := i + 1, n + 1;
    }
    assert n == |arg|;
    assert target[..i + 1] == arg[|prefix|..] + ['\0'];
    assert target[..] == target[..i + 1] + target[i + 1..];
    CStrOfTerminated(arg[|prefix|..], target[i + 1..]);
    return true;
  }

  /** An argument whose value is 128 characters long: catch_arg would store
      129 characters into the 128 of argval. */
  const LongClientArg: string := JackClientPrefix + seq(ArgvalSize, _ => 'x')

  lemma ArgvalOverflow()
    ensures NoNul(LongClientArg) && JackClientPrefix <= LongClientArg
    ensures !CopyFits(ArgvalSize, JackClientPrefix, LongClientArg)
  {
    assert LongClientArg[..|JackClientPrefix|] == JackClientPrefix;
  }

  /** catch_arg as its guard evidently intends: copy at most Length - 1
      characters and always terminate, whatever the argument's length. */
  method CatchArgBounded(target: array<char>, prefix: string, arg: string) returns (caught: bool)
    requires NoNul(prefix) && NoNul(arg) && target.Length > 0
    modifies target
    ensures caught <==> prefix <= arg
    ensures !caught ==> target[..] == old(target[..])
    ensures caught ==> CStr(target[..]) == Truncate(arg[|prefix|..], target.Length - 1)
  {
    caught := StartsWith(prefix, arg);
    if !caught {
      return;
    }
    var str := arg + ['\0'];
    var n, i := |prefix|, 0;
    while true
      invariant n == i + |prefix| <= |arg|
      invariant i < target.Length
      invariant target[..i] == arg[|prefix|..n]
      decreases |arg| - n
    {
      if i >= target.Length - 1 {
        target[i] := '\0';
        assert target[..i + 1] == target[..i] + ['\0'];
        break;
      }
      target[i] := str[n];
      if str[n] == '\0' {
        assert target[..i + 1] == target[..i] + ['\0'];
        break;
      }
      assert target[..i + 1] == arg[|prefix|..n + 1];
      i, n := i + 1, n + 1;
    }
    assert target[..] == arg[|prefix|..n] + ['\0'] + target[i + 1..];
    CStrOfTerminated(arg[|prefix|..n], target[i + 1..]);
    return true;
  }

  /** What main does with the command line: go on with a configuration, or
      stop with an exit status. */
  datatype Parsed = Proceed(config: Config) | Stop(status: int)

  /** Assigning an int to a short keeps its low 16 bits, two's complement. */
  function ToShort(x: int): (r: Int16)
    ensures (r - x) % 0x1_0000 == 0
  {
    (x + 0x8000) % 0x1_0000 - 0x8000
  }

  /** The option value main sees in argval after a bounded catch. */
  function ArgValue(prefix: string, arg: string): string
    requires prefix <= arg
  {
    Truncate(arg[|prefix|..], ArgvalSize - 1)
  }

  /** One argument of main's loop; the first matching test wins. */
  function Dispatch(config: Config, arg: string, atoi: string -> int): Parsed
  {
    if arg == "--help" || arg == "-h" then Stop(EXIT_SUCCESS)
    else if AlsaCardPrefix <= arg then
      var v := ArgValue(AlsaCardPrefix, arg);
      Proceed(config.(cardPlayback := v, cardCapture := v))
    else if AlsaCardPlaybackPrefix <= arg then
      Proceed(config.(cardPlayback := ArgValue(AlsaCardPlaybackPrefix, arg)))
    else if AlsaCardCapturePrefix <= arg then
      Proceed(config.(cardCapture := ArgValue(AlsaCardCapturePrefix, arg)))
    else if JackClientPrefix <= arg then
      Proceed(config.(clientName := ArgValue(JackClientPrefix, arg)))
    else if PortsNumPrefix <= arg then
      var n := ToShort(atoi(ArgValue(PortsNumPrefix, arg)));
      Proceed(config.(playbackChannels := n, captureChannels := n))
    else if PlaybackPortsPrefix <= arg then
      Proceed(config.(playbackChannels := ToShort(atoi(ArgValue(PlaybackPortsPrefix, arg)))))
    else if CapturePortsPrefix <= arg then
      Proceed(config.(captureChannels := ToShort(atoi(ArgValue(CapturePortsPrefix, arg)))))
    else if BitDepthPrefix <= arg then
      var d := atoi(ArgValue(BitDepthPrefix, arg));
      if d == 32 then Proceed(config.(depth := S32))
      else if d == 24 then Proceed(config.(depth := S24))
      else if d == 16 then Proceed(config.(depth := S16))
      else Stop(EXIT_FAILURE)
    else Stop(EXIT_FAILURE)
  }

  /** main's loop over the arguments, as a fold that stops at the first
      argument that ends the program. */
  function ParseArgs(config: Config, args: seq<string>, atoi: string -> int): Parsed
    decreases |args|
  {
    if args == [] then Proceed(config)
    else match Dispatch(config, args[0], atoi)
      case Stop(s) => Stop(s)
      case Proceed(c) => ParseArgs(c, args[1..], atoi)
  }

  /** Parsing a concatenation parses the first part, then the second. */
  lemma {:induction false} ParseArgsAppend(config: Config, xs: seq<string>, ys: seq<string>, atoi: string -> int)
    ensures ParseArgs(config, xs + ys, atoi) ==
            match ParseArgs(config, xs, atoi)
            case Stop(s) => Stop(s)
            case Proceed(c) => ParseArgs(c, ys, atoi)
    decreases |xs|
  {
    if xs == [] {
      assert xs + ys == ys;
    } else {
      assert (xs + ys)[0] == xs[0] && (xs + ys)[1..] == xs[1..] + ys;
      match Dispatch(config, xs[0], atoi)
      case Stop(s) =>
      case Proceed(c) => ParseArgsAppend(c, xs[1..], ys, atoi);
    }
  }

  /** "--ports-num=" sets both directions, and the last one given wins. */
  lemma LastPortsNumWins(config: Config, xs: seq<string>, value: string, atoi: string -> int)
    ensures var arg := PortsNumPrefix + value;
      var n := ToShort(atoi(ArgValue(PortsNumPrefix, arg)));
      ParseArgs(config, xs + [arg], atoi) ==
        match ParseArgs(config, xs, atoi)
        case Stop(s) => Stop(s)
        case Proceed(c) => Proceed(c.(playbackChannels := n, captureChannels := n))
  {
    var arg := PortsNumPrefix + value;
    ParseArgsAppend(config, xs, [arg], atoi);
    assert arg[2] == 'p' && arg[3] == 'o';
    assert PortsNumPrefix <= arg;
  }

  /** "--alsa-card=" sets both card names, and the last one given wins. */
  lemma LastAlsaCardWins(config: Config, xs: seq<string>, value: string, atoi: string -> int)
    ensures var arg := AlsaCardPrefix + value;
      var v := ArgValue(AlsaCardPrefix, arg);
      ParseArgs(config, xs + [arg], atoi) ==
        match ParseArgs(config, xs, atoi)
        case Stop(s) => Stop(s)
        case Proceed(c) => Proceed(c.(cardPlayback := v, cardCapture := v))
  {
    var arg := AlsaCardPrefix + value;
    ParseArgsAppend(config, xs, [arg], atoi);
    assert arg[2] == 'a';
    assert AlsaCardPrefix <= arg;
  }

  /** "--bit-depth=" accepts exactly 32, 24 and 16 and selects that format;
      any other value stops with failure. */
  lemma BitDepthAccepted(config: Config, value: string, atoi: string -> int)
    ensures var arg := BitDepthPrefix + value;
      var d := atoi(ArgValue(BitDepthPrefix, arg));
      && (Dispatch(config, arg, atoi).Proceed? <==> d == 32 || d == 24 || d == 16)
      && (d == 32 ==> Dispatch(config, arg, atoi) == Proceed(config.(depth := S32)))
      && (d == 24 ==> Dispatch(config, arg, atoi) == Proceed(config.(depth := S24)))
      && (d == 16 ==> Dispatch(config, arg, atoi) == Proceed(config.(depth := S16)))
      && (d != 32 && d != 24 && d != 16 ==> Dispatch(config, arg, atoi) == Stop(EXIT_FAILURE))
  {
    var arg := BitDepthPrefix + value;
    assert arg[2] == 'b';
    assert BitDepthPrefix <= arg;
  }

  /** A help flag after accepted arguments stops with success, whatever
      follows it. */
  lemma HelpStops(config: Config, xs: seq<string>, flag: string, ys: seq<string>, atoi: string -> int)
    requires flag == "--help" || flag == "-h"
    requires ParseArgs(config, xs, atoi).Proceed?
    ensures ParseArgs(config, xs + [flag] + ys, atoi) == Stop(EXIT_SUCCESS)
  {
    ParseArgsAppend(config, xs, [flag] + ys, atoi);
    assert xs + [flag] + ys == xs + ([flag] + ys);
  }

  /** An argument that is neither a help flag nor starts with a known prefix. */
  predicate Unknown(arg: string)
  {
    && arg != "--help" && arg != "-h"
    && !(AlsaCardPrefix <= arg) && !(AlsaCardPlaybackPrefix <= arg) && !(AlsaCardCapturePrefix <= arg)
    && !(JackClientPrefix <= arg) && !(PortsNumPrefix <= arg) && !(PlaybackPortsPrefix <= arg)
    && !(CapturePortsPrefix <= arg) && !(BitDepthPrefix <= arg)
  }

  /** An unknown argument after accepted arguments stops with failure. */
  lemma UnknownFails(config: Config, xs: seq<string>, arg: string, ys: seq<string>, atoi: string -> int)
    requires Unknown(arg)
    requires ParseArgs(config, xs, atoi).Proceed?
    ensures ParseArgs(config, xs + [arg] + ys, atoi) == Stop(EXIT_FAILURE)
  {
    ParseArgsAppend(config, xs, [arg] + ys, atoi);
    assert xs + [arg] + ys == xs + ([arg] + ys);
  }

  /** Parsing never selects a format the resize callback rejects, and it
      stops only with success or failure. */
  lemma {:induction false} ParsedFormatSupported(config: Config, args: seq<string>, atoi: string -> int)
    requires !config.depth.OtherFormat?
    ensures ParseArgs(config, args, atoi).Proceed? ==> !ParseArgs(config, args, atoi).config.depth.OtherFormat?
    ensures ParseArgs(config, args, atoi).Stop? ==>
              ParseArgs(config, args, atoi).status in {EXIT_SUCCESS, EXIT_FAILURE}
    decreases |args|
  {
    if args != [] {
      match Dispatch(config, args[0], atoi)
      case Stop(s) =>
      case Proceed(c) => ParsedFormatSupported(c, args[1..], atoi);
    }
  }

  /** The body of main's loop for one argument: the help test, then
      catch_arg against each prefix in turn, copying the value out of
      argval.  Uses the bounded catch so that argval cannot overflow. */
  method DispatchArg(argval: array<char>, config: Config, arg: string, atoi: string -> int) returns (step: Parsed)
    requires argval.Length == ArgvalSize && NoNul(arg)
    modifies argval
    ensures step == Dispatch(config, arg, atoi)
  {
    if arg == "--help" || arg == "-h" {
      return Stop(EXIT_SUCCESS);
    }
    var caught := CatchArgBounded(argval, AlsaCardPrefix, arg);
    if caught {
      var v := CStr(argval[..]);
      return Proceed(config.(cardPlayback := v, cardCapture := v));
    }
    caught := CatchArgBounded(argval, AlsaCardPlaybackPrefix, arg);
    if caught {
      return Proceed(config.(cardPlayback := CStr(argval[..])));
    }
    caught := CatchArgBounded(argval, AlsaCardCapturePrefix, arg);
    if caught {
      return Proceed(config.(cardCapture := CStr(argval[..])));
    }
    caught := CatchArgBounded(argval, JackClientPrefix, arg);
    if caught {
      return Proceed(config.(clientName := CStr(argval[..])));
    }
    caught := CatchArgBounded(argval, PortsNumPrefix, arg);
    if caught {
      var n := ToShort(atoi(CStr(argval[..])));
      return Proceed(config.(playbackChannels := n, captureChannels := n));
    }
    caught := CatchArgBounded(argval, PlaybackPortsPrefix, arg);
    if caught {
      return Proceed(config.(playbackChannels := ToShort(atoi(CStr(argval[..])))));
    }
    caught := CatchArgBounded(argval, CapturePortsPrefix, arg);
    if caught {
      return Proceed(config.(captureChannels := ToShort(atoi(CStr(argval[..])))));
    }
    caught := CatchArgBounded(argval, BitDepthPrefix, arg);
    if caught {
      var d := atoi(CStr(argval[..]));
      if d == 32 {
        return Proceed(config.(depth := S32));
      } else if d == 24 {
        return Proceed(config.(depth := S24));
      } else if d == 16 {
        return Proceed(config.(depth := S16));
      }
      return Stop(EXIT_FAILURE);
    }
    return Stop(EXIT_FAILURE);
  }

  /** The argument loop of main over argv[1..], starting from the defaults. */
  method ParseCommandLine(argv: seq<string>, atoi: string -> int) returns (out: Parsed)
    requires forall i :: 0 <= i < |argv| ==> NoNul(argv[i])
    ensures out == ParseArgs(Default, if |argv| > 1 then argv[1..] else [], atoi)
  {
    var config := Default;
    var argval := new char[ArgvalSize];
    if |argv| > 1 {
      var i := 1;
      while i < |argv|
        invariant 1 <= i <= |argv|
        invariant ParseArgs(Default, argv[1..], atoi) == ParseArgs(config, argv[i..], atoi)
      {
        var step := DispatchArg(argval, config, argv[i], atoi);
        assert argv[i..][0] == argv[i] && argv[i..][1..] == argv[i + 1..];
        match step {
          case Stop(s) =>
            return Stop(s);
          case Proceed(c) =>
            config := c;
        }
        i := i + 1;
      }
    }
    return Proceed(config);
  }
}
