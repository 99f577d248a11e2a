/** `JsonProcessor` of the video generator: load the transcript file, check
    its top-level structure, and hand back the loaded value unchanged. */
module JsonProcessor {
  import opened Wrappers
  import opened Json

  /** What reading the file gave: an I/O failure (with the interpreter's
      message), text that is not JSON, or a parsed value. */
  datatype Source = Unreadable(reason: string) | Malformed | Parsed(data: Json)

  /** Why `_validate_json` (or the file read before it) raised. */
  datatype Cause =
    | MissingRequiredKeys
    | MissingAudioFile
    | TypeErr(e: PyError)
    | IoFailure(reason: string)

  /** The exception `process` raises: `ValueError("Invalid JSON file")` for
      a syntax error, otherwise the wrapped cause. */
  datatype ProcessError = InvalidJsonFile | ProcessingFailed(cause: Cause)

  /** `_validate_json`. The generator in `all(...)` stops at the first
      missing key, and `key in data` on a number, boolean or `null` raises a
      `TypeError` instead of answering; so does `data["metadata"]` on
      anything but an object. */
  function Validate(data: Json): (r: Result<(), Cause>)
    ensures r.Success? ==> data.JObj? && HasKey(data.members, "metadata") && HasKey(data.members, "segments")
  {
    match PyIn("metadata", data)
    case Failure(e) => Failure(TypeErr(e))
    case Success(hasMetadata) =>
      if !hasMetadata then Failure(MissingRequiredKeys)
      else
        match PyIn("segments", data)
        case Failure(e) => Failure(TypeErr(e))
        case Success(hasSegments) =>
          if !hasSegments then Failure(MissingRequiredKeys)
          else
            match PyIndex(data, "metadata")
            case Failure(e) => Failure(TypeErr(e))
            case Success(metadata) =>
              match PyIn("audio_file", metadata)
              case Failure(e) => Failure(TypeErr(e))
              case Success(hasAudio) =>
                if hasAudio then Success(()) else Failure(MissingAudioFile)
  }

  /** `JsonProcessor.process`. */
  function Process(src: Source): (r: Result<Json, ProcessError>)
  {
    match src
    case Unreadable(reason) => Failure(ProcessingFailed(IoFailure(reason)))
    case Malformed => Failure(InvalidJsonFile)
    case Parsed(data) =>
      match Validate(data)
      case Failure(c) => Failure(ProcessingFailed(c))
      case Success(_) => Success(data)
  }

  /** The message of the raised exception. The text of a `TypeError` or of
      an I/O error is the interpreter's, passed in as `typeErrorText`. */
  function ErrorText(e: ProcessError, typeErrorText: PyError -> string): string {
    match e
    case InvalidJsonFile => "Invalid JSON file"
    case ProcessingFailed(c) =>
      "Error processing JSON: " +
        match c
        case MissingRequiredKeys => "Invalid JSON structure: missing required keys"
        case MissingAudioFile => "Invalid JSON structure: missing audio file path"
        case TypeErr(t) => typeErrorText(t)
        case IoFailure(reason) => reason
  }

  // ---------------------------------------------------------------------

  /** On an object, validation succeeds exactly when both top-level keys are
      present and the value kept for `metadata` has an `audio_file` (a key of
      an object, an element of an array, a substring of a string). */
  lemma ValidateObject(members: seq<(string, Json)>)
    ensures Validate(JObj(members)).Success? <==>
              && HasKey(members, "metadata") && HasKey(members, "segments")
              && PyIn("audio_file", Lookup(members, "metadata")) == Success(true)
  {
  }

  /** The top-level check comes first: a missing `metadata` or `segments`
      is reported as such whatever the metadata holds. */
  lemma MissingKeysReportedFirst(members: seq<(string, Json)>)
    requires !HasKey(members, "metadata") || !HasKey(members, "segments")
    ensures Validate(JObj(members)) == Failure(MissingRequiredKeys)
  {
  }

  /** With both keys present, an object `metadata` without `audio_file`
      gives the audio-file error. */
  lemma MissingAudioFileReported(members: seq<(string, Json)>)
    requires HasKey(members, "metadata") && HasKey(members, "segments")
    requires Lookup(members, "metadata").JObj? && !HasKey(Lookup(members, "metadata").members, "audio_file")
    ensures Validate(JObj(members)) == Failure(MissingAudioFile)
  {
  }

  /** A top-level number, boolean or `null` fails with a `TypeError`, not
      with a structure message. */
  lemma ScalarIsTypeError(data: Json)
    requires data.JNull? || data.JBool? || data.JNum?
    ensures Validate(data) == Failure(TypeErr(NotIterable))
  {
  }

  /** A list or a string that happens to contain both key names passes the
      membership test and then fails when indexed. */
  lemma ContainerOfNamesIsTypeError(data: Json)
    requires data.JArr? || data.JStr?
    requires PyIn("metadata", data) == Success(true) && PyIn("segments", data) == Success(true)
    ensures Validate(data) == Failure(TypeErr(NotSubscriptable))
  {
  }

  /** `process` returns the loaded value itself exactly when it validates,
      and otherwise raises with the validation cause. */
  lemma ProcessParsed(data: Json)
    ensures Process(Parsed(data)).Success? <==> Validate(data).Success?
    ensures Process(Parsed(data)).Success? ==> Process(Parsed(data)).value == data
    ensures Validate(data).Failure? ==> Process(Parsed(data)) == Failure(ProcessingFailed(Validate(data).error))
  {
  }

  /** A syntax error keeps its own message; every other failure is
      `Error processing JSON: ` followed by the message of what was raised:
      the two structure messages, which differ, or the interpreter's own
      text for an I/O error or a `TypeError`. */
  lemma ErrorTextShape(src: Source, typeErrorText: PyError -> string)
    requires Process(src).Failure?
    ensures src.Malformed? ==> ErrorText(Process(src).error, typeErrorText) == "Invalid JSON file"
    ensures !src.Malformed? ==>
              var t := ErrorText(Process(src).error, typeErrorText);
              |t| >= 23 && t[..23] == "Error processing JSON: "
    ensures src.Unreadable? ==> ErrorText(Process(src).error, typeErrorText) == "Error processing JSON: " + src.reason
    ensures src.Parsed? && Validate(src.data) == Failure(MissingRequiredKeys) ==>
              ErrorText(Process(src).error, typeErrorText) == "Error processing JSON: " + "Invalid JSON structure: missing required keys"
    ensures src.Parsed? && Validate(src.data) == Failure(MissingAudioFile) ==>
              ErrorText(Process(src).error, typeErrorText) == "Error processing JSON: " + "Invalid JSON structure: missing audio file path"
    ensures forall e :: src.Parsed? && Validate(src.data) == Failure(TypeErr(e)) ==>
              ErrorText(Process(src).error, typeErrorText) == "Error processing JSON: " + typeErrorText(e)
  {
  }

  /** The two structure errors read differently, and neither reads like the
      syntax error. */
  lemma StructureErrorsDistinct(typeErrorText: PyError -> string)
    ensures ErrorText(ProcessingFailed(MissingRequiredKeys), typeErrorText) != ErrorText(ProcessingFailed(MissingAudioFile), typeErrorText)
    ensures ErrorText(ProcessingFailed(MissingRequiredKeys), typeErrorText) != ErrorText(InvalidJsonFile, typeErrorText)
    ensures ErrorText(ProcessingFailed(MissingAudioFile), typeErrorText) != ErrorText(InvalidJsonFile, typeErrorText)
  {
  }
}
