/** The transcript document as JSON: the layout `json.dump` writes for
    `transcription_markers.json`, and the reading the other scripts apply to
    it (`int(second)` on each key, `entry["marker"]`, `"image_path" in
    entry`). */
module Codec {
  import opened Wrappers
  import opened Numerals
  import opened Transcript
  import opened Json
  import opened JsonProcessor

  function MarkerJson(marker: Option<int>): Json {
    match marker
    case None => JNull
    case Some(k) => JNum(k)
  }

  /** One entry: `timestamp`, `text`, `marker` (`null` when absent), then
      `image_path` only once an image was attached. */
  function EntryJson(e: Entry): Json {
    JObj([("timestamp", JStr(e.timestamp)), ("text", JStr(e.text)), ("marker", MarkerJson(e.marker))]
         + (if e.imagePath.Some? then [("image_path", JStr(e.imagePath.value))] else []))
  }

  /** The `segments` object: one member per slot, keyed by `str(second)`. */
  function SlotsJson(slots: seq<Slot>): (ms: seq<(string, Json)>)
    ensures |ms| == |slots|
    ensures forall i :: 0 <= i < |slots| ==> ms[i] == (IntToString(slots[i].second), EntryJson(slots[i].entry))
  {
    if slots == [] then []
    else [(IntToString(slots[0].second), EntryJson(slots[0].entry))] + SlotsJson(slots[1..])
  }

  function MetadataJson(md: Metadata): Json {
    JObj([("audio_file", JStr(md.audioFile)), ("total_duration", JNum(md.totalDuration)),
          ("processed_date", JStr(md.processedDate))])
  }

  function DocumentJson(doc: Document): Json {
    JObj([("metadata", MetadataJson(doc.metadata)), ("segments", JObj(SlotsJson(doc.segments)))])
  }

  // ---------------------------------------------------------------------
  // Reading a loaded value back.

  function StrField(j: Json, key: string): Option<string> {
    match PyIndex(j, key)
    case Success(JStr(s)) => Some(s)
    case _ => None
  }

  function NumField(j: Json, key: string): Option<int> {
    match PyIndex(j, key)
    case Success(JNum(n)) => Some(n)
    case _ => None
  }

  function ReadMarker(j: Json): Option<Option<int>> {
    match j
    case JNull => Some(None)
    case JNum(n) => Some(Some(n))
    case _ => None
  }

  /** An entry object: the three fields, and `image_path` when
      `"image_path" in entry`. */
  function ReadEntry(j: Json): Option<Entry> {
    var timestamp :- StrField(j, "timestamp");
    var text :- StrField(j, "text");
    var raw :- (match PyIndex(j, "marker") case Success(v) => Some(v) case Failure(_) => None);
    var marker :- ReadMarker(raw);
    if PyIn("image_path", j) == Success(true) then
      var path :- StrField(j, "image_path");
      Some(Entry(timestamp, text, marker, Some(path)))
    else Some(Entry(timestamp, text, marker, None))
  }

  /** The members of `segments`, each key read with `int()`. */
  function ReadSlots(ms: seq<(string, Json)>): (r: Option<seq<Slot>>)
    ensures r.Some? ==> |r.value| == |ms|
  {
    if ms == [] then Some([])
    else
      var second :- ParseInt(ms[0].0);
      var entry :- ReadEntry(ms[0].1);
      var rest :- ReadSlots(ms[1..]);
      Some([Slot(second, entry)] + rest)
  }

  function ReadDocument(j: Json): Option<Document> {
    var md :- (match PyIndex(j, "metadata") case Success(v) => Some(v) case Failure(_) => None);
    var audioFile :- StrField(md, "audio_file");
    var totalDuration :- NumField(md, "total_duration");
    var processedDate :- StrField(md, "processed_date");
    var segments :- (match PyIndex(j, "segments") case Success(JObj(ms)) => Some(ms) case _ => None);
    var slots :- ReadSlots(segments);
    Some(Document(Metadata(audioFile, totalDuration, processedDate), slots))
  }

  // ---------------------------------------------------------------------

  lemma EntryRoundTrip(e: Entry)
    ensures ReadEntry(EntryJson(e)) == Some(e)
  {
    var j := EntryJson(e);
    var ms := j.members;
    LookupLast(ms, 0, "timestamp");
    LookupLast(ms, 1, "text");
    LookupLast(ms, 2, "marker");
    assert StrField(j, "timestamp") == Some(e.timestamp);
    assert StrField(j, "text") == Some(e.text);
    assert ReadMarker(MarkerJson(e.marker)) == Some(e.marker);
    if e.imagePath.Some? {
      LookupLast(ms, 3, "image_path");
      assert StrField(j, "image_path") == Some(e.imagePath.value);
    } else {
      HasKeyIff(ms, "image_path");
      assert forall i :: 0 <= i < |ms| ==> |ms[i].0| != |"image_path"|;
    }
  }

  lemma {:induction false} SlotsRoundTrip(slots: seq<Slot>)
    ensures ReadSlots(SlotsJson(slots)) == Some(slots)
  {
    if slots != [] {
      var ms := SlotsJson(slots);
      ParseIntRoundTrip(slots[0].second);
      EntryRoundTrip(slots[0].entry);
      assert ms[1..] == SlotsJson(slots[1..]);
      SlotsRoundTrip(slots[1..]);
      assert [slots[0]] + slots[1..] == slots;
    }
  }

  /** Reading back what was written gives the same document: every second
      survives `str` followed by `int`, and every entry its fields. */
  lemma DocumentRoundTrip(doc: Document)
    ensures ReadDocument(DocumentJson(doc)) == Some(doc)
  {
    var j := DocumentJson(doc);
    var top := j.members;
    LookupLast(top, 0, "metadata");
    LookupLast(top, 1, "segments");
    var md := MetadataJson(doc.metadata);
    LookupLast(md.members, 0, "audio_file");
    LookupLast(md.members, 1, "total_duration");
    LookupLast(md.members, 2, "processed_date");
    assert StrField(md, "audio_file") == Some(doc.metadata.audioFile);
    assert NumField(md, "total_duration") == Some(doc.metadata.totalDuration);
    assert StrField(md, "processed_date") == Some(doc.metadata.processedDate);
    SlotsRoundTrip(doc.segments);
  }

  /** Every document the transcriber writes passes the video generator's
      structural check, and `process` hands it back unchanged. */
  lemma WrittenDocumentValidates(doc: Document)
    ensures Validate(DocumentJson(doc)) == Success(())
    ensures Process(Parsed(DocumentJson(doc))) == Success(DocumentJson(doc))
  {
    var top := DocumentJson(doc).members;
    LookupLast(top, 0, "metadata");
    HasKeyIff(top, "segments");
    assert top[1].0 == "segments";
    var md := MetadataJson(doc.metadata).members;
    HasKeyIff(md, "audio_file");
    assert md[0].0 == "audio_file";
  }
}
