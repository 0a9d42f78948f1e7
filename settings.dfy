/** The process-wide configuration that the command line fills in and the
    callbacks read. */
module Settings {
  import opened SampleCodec

  /** The exit statuses of stdlib.h. */
  const EXIT_SUCCESS: int := 0
  const EXIT_FAILURE: int := 1

  /** Channel counts are C shorts; zero or less disables a direction. */
  datatype Config = Config(
    playbackChannels: Int16,   // JACK inputs, ALSA outputs
    captureChannels: Int16,    // ALSA inputs, JACK outputs
    depth: Format,
    cardPlayback: string,
    cardCapture: string,
    clientName: string)

  /** Stereo both ways, 32-bit samples, the "default" ALSA card for both
      directions and the JACK client name "meta_jacktoalsa". */
  const Default: Config := Config(2, 2, S32, "default", "default", "meta_jacktoalsa")
}
