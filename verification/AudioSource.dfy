/** The audio-source label that names a release's origin and quality:
    `LocalTrackData.get_audio_source` (Modules/Scan/models/local_album_data.py)
    and `deduceAudioDetails` (Modules/Rename/utils.py). */
module AudioSource {
  import opened Wrappers
  import Text

  /** The stream properties the label reads: bits per sample, the sample rate
      in Hz and the bit rate in bit/s. */
  datatype StreamInfo = StreamInfo(bitsPerSample: int, sampleRate: int, bitrate: nat)

  datatype Source = CD | WEB | VINYL
  datatype Format = FLAC | WAV

  /** A label as its parts; `Lossless` prints as "{source}-{format} {bits}bit
      {rate}kHz", `Mp3` as "CD-MP3 {kbps}kbps", `Aac` as "WEB-AAC {kbps}kbps",
      `Ogg` as "WEB-OGG {kbps}kbps" and `Opus` as "YT-OPUS". */
  datatype Label =
    | Lossless(source: Source, format: Format, bits: int, sampleRate: int)
    | Mp3(kbps: nat)
    | Aac(kbps: nat)
    | Ogg(kbps: nat)
    | Opus

  /** CD for 16-bit audio, WEB otherwise, overridden by VINYL for 192 kHz and
      more or more than 24 bits. */
  function SourceOf(bits: int, sampleRate: int): (r: Source)
    ensures r == VINYL <==> sampleRate >= 192000 || bits > 24
    ensures r == CD <==> bits == 16 && sampleRate < 192000
    ensures r == WEB <==> bits != 16 && bits <= 24 && sampleRate < 192000
  {
    var source := if bits == 16 then CD else WEB;
    if sampleRate >= 192000 || bits > 24 then VINYL else source
  }

  /** `int(bitrate / 1000)` for a non-negative bit rate: whole kbit/s. */
  function Kbps(bitrate: nat): (k: nat)
    ensures k * 1000 <= bitrate < (k + 1) * 1000
  {
    bitrate / 1000
  }

  /** The label of the lossy and lossless formats the branches after the
      FLAC/WAV test know, decided by the extension exactly as written. */
  function LossyLabel(extension: string, info: StreamInfo): (r: Option<Label>)
    ensures r.Some? <==> extension in {".mp3", ".m4a", ".ogg", ".opus"}
    ensures r.Some? ==> !r.value.Lossless?
  {
    if extension == ".mp3" then Some(Mp3(Kbps(info.bitrate)))
    else if extension == ".m4a" then Some(Aac(Kbps(info.bitrate)))
    else if extension == ".ogg" then Some(Ogg(Kbps(info.bitrate)))
    else if extension == ".opus" then Some(Opus)
    else None
  }

  function LosslessLabel(format: Format, info: StreamInfo): (r: Label)
    ensures r.Lossless? && r.format == format
    ensures r.bits == info.bitsPerSample && r.sampleRate == info.sampleRate
    ensures r.source == SourceOf(info.bitsPerSample, info.sampleRate)
  {
    Lossless(SourceOf(info.bitsPerSample, info.sampleRate), format, info.bitsPerSample, info.sampleRate)
  }

  /** `deduceAudioDetails`: the FLAC/WAV test is case-sensitive; `None` stands
      for the empty label "" of every other extension. */
  function Deduce(extension: string, info: StreamInfo): (r: Option<Label>)
    ensures r.Some? <==> extension in {".flac", ".wav", ".mp3", ".m4a", ".ogg", ".opus"}
    ensures r.Some? && r.value.Lossless? <==> extension in {".flac", ".wav"}
    ensures extension == ".flac" ==> r == Some(LosslessLabel(FLAC, info))
    ensures extension == ".wav" ==> r == Some(LosslessLabel(WAV, info))
  {
    if extension == ".flac" || extension == ".wav" then
      Some(LosslessLabel(if extension == ".flac" then FLAC else WAV, info))
    else LossyLabel(extension, info)
  }

  /** `get_audio_source` as written: the FLAC/WAV test lower-cases the
      extension but the format test compares it as is, so ".FLAC" is called
      WAV. */
  function TrackSourceAsWritten(extension: string, info: StreamInfo): (r: Option<Label>)
    ensures Text.Lower(extension) in {".flac", ".wav"} ==> r.Some? && r.value.Lossless?
    ensures r.Some? && r.value.Lossless? ==> (r.value.format == FLAC <==> extension == ".flac")
  {
    var low := Text.Lower(extension);
    if low == ".flac" || low == ".wav" then
      Some(LosslessLabel(if extension == ".flac" then FLAC else WAV, info))
    else LossyLabel(extension, info)
  }

  /** `get_audio_source` with the format read from the lower-cased extension,
      as the case-insensitive test before it intends. */
  function TrackSource(extension: string, info: StreamInfo): (r: Option<Label>)
    ensures Text.Lower(extension) in {".flac", ".wav"} ==> r.Some? && r.value.Lossless?
  {
    var low := Text.Lower(extension);
    if low == ".flac" || low == ".wav" then
      Some(LosslessLabel(if low == ".flac" then FLAC else WAV, info))
    else LossyLabel(extension, info)
  }

  /** The corrected label names the format the extension names, in any case. */
  lemma TrackSourceFormat(extension: string, info: StreamInfo)
    ensures Text.Lower(extension) == ".flac" ==> TrackSource(extension, info) == Some(LosslessLabel(FLAC, info))
    ensures Text.Lower(extension) == ".wav" ==> TrackSource(extension, info) == Some(LosslessLabel(WAV, info))
    ensures Text.Lower(extension) !in {".flac", ".wav"} ==> TrackSource(extension, info) == LossyLabel(extension, info)
  {
  }

  /** Extensions differing only in case get the same lossless label. */
  lemma TrackSourceIgnoresCase(e1: string, e2: string, info: StreamInfo)
    requires Text.Lower(e1) == Text.Lower(e2) && Text.Lower(e1) in {".flac", ".wav"}
    ensures TrackSource(e1, info) == TrackSource(e2, info)
  {
  }

  /** On a lower-case extension all three agree: the two functions label the
      same way, and the slip in the format test cannot show. */
  lemma LowerCaseAgrees(extension: string, info: StreamInfo)
    requires Text.Lower(extension) == extension
    ensures TrackSourceAsWritten(extension, info) == TrackSource(extension, info)
    ensures TrackSource(extension, info) == Deduce(extension, info)
  {
  }

  /** ".FLAC" is labelled a WAV by the code as written, and a FLAC once the
      format test reads the lower-cased extension. */
  lemma UpperFlacIsCalledWav(info: StreamInfo)
    ensures TrackSourceAsWritten(".FLAC", info) == Some(LosslessLabel(WAV, info))
    ensures TrackSource(".FLAC", info) == Some(LosslessLabel(FLAC, info))
  {
    assert Text.Lower(".FLAC") == ".flac" by {
      var low := Text.Lower(".FLAC");
      assert low[0] == '.' && low[1] == 'f' && low[2] == 'l' && low[3] == 'a' && low[4] == 'c';
    }
  }
}
