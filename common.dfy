/**
 * The decision logic of src/common.rs: the audio-extension test and the
 * answer to the yes/no prompt, read from a sequence of input lines.
 */
module Common {
  import opened Text

  /** `ext_is_audio_file`: the ASCII-lowercased extension is one of the 41 listed. */
  function ExtIsAudioFile(ext: string): bool
  {
    match AsciiLower(ext)
    case "3gp" | "aa" | "aac" | "aax" | "act" | "aiff" | "alac" | "amr"
       | "ape" | "au" | "awb" | "dss" | "dvf" | "flac" | "gsm"
       | "iklax" | "ivs" | "m4a" | "m4b" | "m4p" | "mmf" | "movpkg"
       | "mp3" | "mpc" | "msv" | "nmf" | "ogg" | "opus" | "ra" | "raw"
       | "rf64" | "sln" | "tta" | "voc" | "vox" | "wav" | "wma" | "wv"
       | "webm" | "8svx" | "cda"
      => true
    case _ => false
  }

  /** The audio extensions as a table, one entry per listed extension, in lower case. */
  const AUDIO_EXTENSIONS: seq<string> := [
    "3gp", "aa", "aac", "aax", "act", "aiff", "alac", "amr",
    "ape", "au", "awb", "dss", "dvf", "flac", "gsm",
    "iklax", "ivs", "m4a", "m4b", "m4p", "mmf", "movpkg",
    "mp3", "mpc", "msv", "nmf", "ogg", "opus", "ra", "raw",
    "rf64", "sln", "tta", "voc", "vox", "wav", "wma", "wv",
    "webm", "8svx", "cda"
  ]

  /** An extension is audio exactly when, ignoring ASCII case, it is one in the table. */
  lemma ExtIsAudioFileMatchesTable(ext: string)
    ensures ExtIsAudioFile(ext) <==> AsciiLower(ext) in AUDIO_EXTENSIONS
  {
  }

  /** The table has 41 entries, all without capitals. */
  lemma AudioExtensionsLowerCase()
    ensures |AUDIO_EXTENSIONS| == 41
    ensures forall i :: 0 <= i < |AUDIO_EXTENSIONS| ==> IsAsciiLower(AUDIO_EXTENSIONS[i])
  {
  }

  /** Every listed extension, written in any mix of cases, is audio. */
  lemma ExtIsAudioFileAcceptsListed(ext: string)
    requires AsciiLower(ext) in AUDIO_EXTENSIONS
    ensures ExtIsAudioFile(ext)
  {
    ExtIsAudioFileMatchesTable(ext);
  }

  /** Case does not matter: an extension and its lower case are classified alike. */
  lemma ExtIsAudioFileIgnoresCase(ext: string)
    ensures ExtIsAudioFile(ext) == ExtIsAudioFile(AsciiLower(ext))
  {
    AsciiLowerFixesLowerCase(ext);
  }

  /** Listed extensions are audio whatever their case. */
  lemma ExtIsAudioFileAcceptsExamples()
    ensures ExtIsAudioFile("mp3") && ExtIsAudioFile("FLAC") && ExtIsAudioFile("8svx")
  {
    assert AsciiLower("mp3") == "mp3";
    assert AsciiLower("FLAC") == "flac";
    assert AsciiLower("8svx") == "8svx";
  }

  /** The empty string and image extensions are not audio. */
  lemma ExtIsAudioFileRejectsExamples()
    ensures !ExtIsAudioFile("") && !ExtIsAudioFile("png") && !ExtIsAudioFile("JPG")
  {
    assert AsciiLower("png") == "png";
    assert AsciiLower("JPG") == "jpg";
  }

  /** The first line of `lines` that is not blank. */
  function FirstAnswerLine(lines: seq<string>): (k: nat)
    requires exists i :: 0 <= i < |lines| && !IsBlank(lines[i])
    ensures k < |lines| && !IsBlank(lines[k])
    ensures forall j :: 0 <= j < k ==> IsBlank(lines[j])
  {
    if !IsBlank(lines[0]) then 0 else 1 + FirstAnswerLine(lines[1..])
  }

  /**
   * The decision loop of `ask_confirm` over the lines the user types (each
   * with its line ending, as `read_line` returns them). Every line is
   * appended to the same buffer, which is trimmed and matched: "y" or "Y"
   * accepts, "n" or "N" declines, nothing re-prompts, anything else declines.
   * The answer is therefore decided by the first non-blank line, and
   * `linesRead` lines are consumed. At the end of input the source would
   * prompt for ever, so a non-blank line must come.
   */
  method AskConfirm(lines: seq<string>) returns (accepted: bool, linesRead: nat)
    requires exists i :: 0 <= i < |lines| && !IsBlank(lines[i])
    ensures linesRead == FirstAnswerLine(lines) + 1
    ensures accepted <==> Trim(lines[FirstAnswerLine(lines)]) in {"y", "Y"}
    ensures forall j :: 0 <= j < linesRead - 1 ==> Trim(lines[j]) == ""
  {
    ghost var k := FirstAnswerLine(lines);
    var input := "";
    var i := 0;
    var decided := false;
    accepted := false;
    while !decided
      invariant i <= |lines|
      invariant !decided ==> i <= k && IsBlank(input)
      invariant decided ==> i == k + 1 && (accepted <==> Trim(lines[k]) in {"y", "Y"})
      decreases if decided then 0 else k + 1 - i
    {
      TrimBlankPrefix(input, lines[i]);
      input := input + lines[i];
      i := i + 1;
      match Trim(input) {
        case "y" | "Y" =>
          accepted, decided := true, true;
        case "n" | "N" =>
          accepted, decided := false, true;
        case "" =>
        case _ =>
          accepted, decided := false, true;
      }
    }
    linesRead := i;
    forall j | 0 <= j < linesRead - 1 ensures Trim(lines[j]) == "" {
      assert IsBlank(lines[j]);
    }
  }
}
