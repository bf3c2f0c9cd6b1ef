/**
 * The event-request form: required-field validation, the dropzone's split
 * of dropped files into photos and videos, the multipart body the submit
 * handler builds and the reset after a successful submission.
 */
module SendRequest {
  import opened Wrappers
  import opened JsString
  import opened Seqs

  datatype Location = Location(lat: string, long: string)

  /**
   * The form state. Its `medias` entry is left out: no handler changes it, so
   * it always serialises as the empty lists (see `MediasJson`).
   */
  datatype FormData = FormData(
    titles: string,
    descriptions: string,
    locations: Location,
    category: string,
    startDates: string,
    endDates: string)

  const InitialForm: FormData := FormData("", "", Location("", ""), "", "", "")

  /** A dropped file: its name and its MIME type (`file.type`). */
  datatype DroppedFile = DroppedFile(name: string, mimeType: string)

  datatype MediaFiles = MediaFiles(photos: seq<DroppedFile>, videos: seq<DroppedFile>)

  const NoMediaFiles: MediaFiles := MediaFiles([], [])

  // ---- validateForm ----

  /** The keys `validateForm` can record, one per required field. */
  datatype FieldKey = Titles | Descriptions | Locations | Category | StartDates | EndDates

  function ErrorMessage(k: FieldKey): string
  {
    match k
    case Titles => "El título es requerido"
    case Descriptions => "La descripción es requerida"
    case Locations => "Las coordenadas son requeridas"
    case Category => "Seleccione una categoría"
    case StartDates => "Seleccione la fecha de inicio"
    case EndDates => "Seleccione la fecha de fin"
  }

  /**
   * When a field counts as missing: a title or description empty after
   * trimming, either coordinate empty (falsy), or an empty choice.
   */
  predicate Missing(f: FormData, k: FieldKey)
  {
    match k
    case Titles => Blank(f.titles)
    case Descriptions => Blank(f.descriptions)
    case Locations => f.locations.lat == "" || f.locations.long == ""
    case Category => f.category == ""
    case StartDates => f.startDates == ""
    case EndDates => f.endDates == ""
  }

  /** The form passes exactly when every required field is present. */
  lemma ValidIffComplete(f: FormData)
    ensures (forall k: FieldKey :: !Missing(f, k)) <==>
      && Trim(f.titles) != "" && Trim(f.descriptions) != ""
      && f.locations.lat != "" && f.locations.long != ""
      && f.category != "" && f.startDates != "" && f.endDates != ""
  {
    BlankIsTrimEmpty(f.titles);
    BlankIsTrimEmpty(f.descriptions);
    if forall k: FieldKey :: !Missing(f, k) {
      assert !Missing(f, Titles) && !Missing(f, Descriptions) && !Missing(f, Locations);
      assert !Missing(f, Category) && !Missing(f, StartDates) && !Missing(f, EndDates);
    }
  }

  /**
   * An `errors` object. Each key only ever holds its own field's message, or
   * `undefined` once `handleChange` clears it, so the state is the set of
   * keys holding their message.
   */
  type ErrorState = set<FieldKey>

  /** `{}` */
  const NoErrors: ErrorState := {}

  /** `errors[k]`, as the page reads it under field `k`. */
  function Get(e: ErrorState, k: FieldKey): Option<string>
  {
    if k in e then Some(ErrorMessage(k)) else None
  }

  /** The `errors` object `validateForm` records: exactly the missing fields, each with its message. */
  ghost predicate ErrorsFor(e: ErrorState, f: FormData)
  {
    forall k: FieldKey :: k in e <==> Missing(f, k)
  }

  /** No key recorded (`Object.keys(errors).length === 0`) exactly when no field is missing. */
  lemma NoErrorsIffComplete(e: ErrorState, f: FormData)
    requires ErrorsFor(e, f)
    ensures e == NoErrors <==> forall k: FieldKey :: !Missing(f, k)
  {
    if e != NoErrors {
      var k :| k in e;
    }
  }

  /** One missing coordinate, or both, records the single `locations` error. */
  lemma OneLocationsError(e: ErrorState, f: FormData)
    requires ErrorsFor(e, f)
    requires f.locations.lat == "" || f.locations.long == ""
    ensures Get(e, Locations) == Some("Las coordenadas son requeridas")
  {
  }

  // ---- onDrop ----

  function IsImage(f: DroppedFile): bool
  {
    StartsWith(f.mimeType, "image")
  }

  function IsVideo(f: DroppedFile): bool
  {
    StartsWith(f.mimeType, "video")
  }

  /** The new selection after a drop, replacing the previous one. */
  function Partition(accepted: seq<DroppedFile>): (m: MediaFiles)
    ensures |m.photos| + |m.videos| <= |accepted|
  {
    var photos := Filter(accepted, IsImage);
    var videos := Filter(accepted, IsVideo);
    PartitionSize(accepted);
    MediaFiles(photos, videos)
  }

  /** No file is both a photo and a video: "image" and "video" are prefixes of equal length. */
  lemma NotBoth(f: DroppedFile)
    ensures !(IsImage(f) && IsVideo(f))
  {
    if IsImage(f) && IsVideo(f) {
      StartsWithBoth(f.mimeType, "image", "video");
    }
  }

  lemma {:induction false} PartitionSize(s: seq<DroppedFile>)
    ensures |Filter(s, IsImage)| + |Filter(s, IsVideo)| <= |s|
  {
    if s != [] {
      PartitionSize(s[1..]);
      NotBoth(s[0]);
    }
  }

  /**
   * Photos are exactly the dropped files typed "image…", videos exactly those
   * typed "video…", each list in drop order, and every other file is dropped.
   */
  lemma PartitionSpec(accepted: seq<DroppedFile>, more: seq<DroppedFile>, f: DroppedFile)
    ensures f in Partition(accepted).photos <==> f in accepted && IsImage(f)
    ensures f in Partition(accepted).videos <==> f in accepted && IsVideo(f)
    ensures !IsImage(f) && !IsVideo(f) ==> f !in Partition(accepted).photos && f !in Partition(accepted).videos
    ensures Partition(accepted + more).photos == Partition(accepted).photos + Partition(more).photos
    ensures Partition(accepted + more).videos == Partition(accepted).videos + Partition(more).videos
  {
    FilterMember(accepted, IsImage, f);
    FilterMember(accepted, IsVideo, f);
    FilterConcat(accepted, more, IsImage);
    FilterConcat(accepted, more, IsVideo);
  }

  /** The photo and video lists share no file. */
  lemma PartitionDisjoint(accepted: seq<DroppedFile>, f: DroppedFile)
    ensures !(f in Partition(accepted).photos && f in Partition(accepted).videos)
  {
    PartitionSpec(accepted, [], f);
    NotBoth(f);
  }

  // ---- the submission body ----

  /** One `FormData.append`: a text value, or a file. */
  datatype Entry = TextEntry(key: string, value: string) | FileEntry(key: string, file: DroppedFile)

  /** `Object.keys(formData)`, in the order the initial object declares them. */
  const FormKeys: seq<string> := ["titles", "descriptions", "locations", "category", "startDates", "endDates", "medias"]

  const LatKey: string := "{\"lat\":"
  const LongKey: string := ",\"long\":"

  /** `JSON.stringify(formData.locations)`. */
  function LocationsJson(l: Location): string
  {
    LatKey + JsonQuote(l.lat) + LongKey + JsonQuote(l.long) + "}"
  }

  /** `JSON.stringify(formData.medias)`: the lists are always empty. */
  const MediasJson: string := "{\"photos\":[],\"videos\":[]}"

  /** Reads a serialised location back. */
  function ParseLocations(s: string): Option<Location>
  {
    if !StartsWith(s, LatKey) then None
    else match ReadString(s[|LatKey|..])
      case None => None
      case Some((lat, r)) =>
        if !StartsWith(r, LongKey) then None
        else match ReadString(r[|LongKey|..])
          case None => None
          case Some((long, r2)) => if r2 == "}" then Some(Location(lat, long)) else None
  }

  /** The `locations` entry is decodable: it determines both coordinates exactly. */
  lemma LocationsRoundTrip(l: Location)
    ensures ParseLocations(LocationsJson(l)) == Some(l)
  {
    var tail := LongKey + (JsonQuote(l.long) + "}");
    var body := JsonQuote(l.lat) + tail;
    assert LocationsJson(l) == LatKey + body;
    DropPrefix(LatKey, body);
    ReadJsonQuote(l.lat, tail);
    DropPrefix(LongKey, JsonQuote(l.long) + "}");
    ReadJsonQuote(l.long, "}");
  }

  lemma DropPrefix(p: string, x: string)
    ensures StartsWith(p + x, p) && (p + x)[|p|..] == x
  {
    assert (p + x)[..|p|] == p;
  }

  /** The value appended for a key other than `locations` and `medias`. */
  function RawValue(f: FormData, key: string): string
  {
    if key == "titles" then f.titles
    else if key == "descriptions" then f.descriptions
    else if key == "category" then f.category
    else if key == "startDates" then f.startDates
    else if key == "endDates" then f.endDates
    else ""
  }

  function JsonValue(f: FormData, key: string): string
  {
    if key == "locations" then LocationsJson(f.locations) else MediasJson
  }

  /** Every file of a list under the key "media", in list order. */
  function MediaEntries(files: seq<DroppedFile>): (r: seq<Entry>)
    ensures |r| == |files|
    ensures forall i :: 0 <= i < |r| ==> r[i] == FileEntry("media", files[i])
  {
    if files == [] then [] else [FileEntry("media", files[0])] + MediaEntries(files[1..])
  }

  /** The seven field entries, in key order. */
  function Fields(f: FormData): seq<Entry>
  {
    [ TextEntry("titles", f.titles),
      TextEntry("descriptions", f.descriptions),
      TextEntry("locations", LocationsJson(f.locations)),
      TextEntry("category", f.category),
      TextEntry("startDates", f.startDates),
      TextEntry("endDates", f.endDates),
      TextEntry("medias", MediasJson) ]
  }

  /** The body the submit handler sends, as the list of its appends. */
  function Body(f: FormData, media: MediaFiles): seq<Entry>
  {
    Fields(f) + MediaEntries(media.photos) + MediaEntries(media.videos)
  }

  /** What the first loop appends for the `i`-th key. */
  lemma FieldAt(f: FormData, i: nat)
    requires i < |FormKeys|
    ensures var key := FormKeys[i];
      Fields(f)[i] == if key == "locations" || key == "medias" then TextEntry(key, JsonValue(f, key))
                      else TextEntry(key, RawValue(f, key))
  {
  }

  /** The body opens with one text entry per key, in `FormKeys` order. */
  lemma BodyFields(f: FormData, media: MediaFiles)
    ensures var b := Body(f, media);
      && |b| == 7 + |media.photos| + |media.videos|
      && (forall i :: 0 <= i < 7 ==> b[i].TextEntry? && b[i].key == FormKeys[i])
  {
    var b := Body(f, media);
    assert b[..7] == Fields(f);
  }

  /** Then every photo and then every video, in drop order, each under "media". */
  lemma BodyFiles(f: FormData, media: MediaFiles)
    ensures var b := Body(f, media);
      && (forall i :: 0 <= i < |media.photos| ==> b[7 + i] == FileEntry("media", media.photos[i]))
      && (forall j :: 0 <= j < |media.videos| ==> b[7 + |media.photos| + j] == FileEntry("media", media.videos[j]))
  {
    var b := Body(f, media);
    var ps := MediaEntries(media.photos);
    assert b == Fields(f) + (ps + MediaEntries(media.videos));
    assert |Fields(f)| == 7;
  }

  /** The locations entry reads back as the form's location. */
  lemma BodyLocations(f: FormData, media: MediaFiles)
    ensures Body(f, media)[2] == TextEntry("locations", LocationsJson(f.locations))
    ensures ParseLocations(Body(f, media)[2].value) == Some(f.locations)
  {
    assert Body(f, media)[2] == Fields(f)[2];
    LocationsRoundTrip(f.locations);
  }

  /** The two `forEach` loops appending the files. */
  method AppendFiles(entries: seq<Entry>, files: seq<DroppedFile>) returns (r: seq<Entry>)
    ensures r == entries + MediaEntries(files)
  {
    r := entries;
    var i := 0;
    while i < |files|
      invariant 0 <= i <= |files|
      invariant |r| == |entries| + i && r[..|entries|] == entries
      invariant forall k :: 0 <= k < i ==> r[|entries| + k] == FileEntry("media", files[k])
    {
      r := r + [FileEntry("media", files[i])];
      i := i + 1;
    }
    assert forall k :: 0 <= k < |r| ==> r[k] == (entries + MediaEntries(files))[k];
  }

  /** `submissionData` as the handler fills it. */
  method Serialize(f: FormData, media: MediaFiles) returns (entries: seq<Entry>)
    ensures entries == Body(f, media)
  {
    entries := [];
    var i := 0;
    while i < |FormKeys|
      invariant 0 <= i <= |FormKeys|
      invariant entries == Fields(f)[..i]
    {
      var key := FormKeys[i];
      FieldAt(f, i);
      assert Fields(f)[..i + 1] == Fields(f)[..i] + [Fields(f)[i]];
      if key == "locations" || key == "medias" {
        entries := entries + [TextEntry(key, JsonValue(f, key))];
      } else {
        entries := entries + [TextEntry(key, RawValue(f, key))];
      }
      i := i + 1;
    }
    assert entries == Fields(f);
    entries := AppendFiles(entries, media.photos);
    entries := AppendFiles(entries, media.videos);
  }

  // ---- the page ----

  const MsgSubmitted := "petición enviada con éxitos"

  /** How `sendRequest` ends: it throws, or it resolves with a body whose `message` may be absent. */
  datatype Reply = Rejected | Resolved(message: Option<string>)

  /** The form fields `handleChange` can name: the five plain text fields. */
  datatype TextField = TitlesField | DescriptionsField | CategoryField | StartDatesField | EndDatesField

  function KeyOf(t: TextField): FieldKey
  {
    match t
    case TitlesField => Titles
    case DescriptionsField => Descriptions
    case CategoryField => Category
    case StartDatesField => StartDates
    case EndDatesField => EndDates
  }

  function SetField(f: FormData, t: TextField, value: string): FormData
  {
    match t
    case TitlesField => f.(titles := value)
    case DescriptionsField => f.(descriptions := value)
    case CategoryField => f.(category := value)
    case StartDatesField => f.(startDates := value)
    case EndDatesField => f.(endDates := value)
  }

  /** The input's `name`. */
  function NameOf(t: TextField): string
  {
    match t
    case TitlesField => "titles"
    case DescriptionsField => "descriptions"
    case CategoryField => "category"
    case StartDatesField => "startDates"
    case EndDatesField => "endDates"
  }

  /**
   * `{ ...prev, [name]: value }`: the named field takes the value, every
   * other field keeps its own, and only the named field's `Missing` status
   * can change.
   */
  lemma SetFieldOnly(f: FormData, t: TextField, value: string)
    ensures RawValue(SetField(f, t, value), NameOf(t)) == value
    ensures forall u :: u != t ==> RawValue(SetField(f, t, value), NameOf(u)) == RawValue(f, NameOf(u))
    ensures SetField(f, t, value).locations == f.locations
    ensures forall k :: k != KeyOf(t) ==> Missing(SetField(f, t, value), k) == Missing(f, k)
  {
  }

  class SendRequestPage {
    var formData: FormData
    var mediaFiles: MediaFiles
    var validationErrors: ErrorState
    var loading: bool

    constructor ()
      ensures formData == InitialForm && mediaFiles == NoMediaFiles && validationErrors == NoErrors && !loading
    {
      formData := InitialForm;
      mediaFiles := NoMediaFiles;
      validationErrors := NoErrors;
      loading := false;
    }

    /** `validateForm()`: records the errors, by successive assignments, and reports whether there were none. */
    method ValidateForm() returns (ok: bool)
      modifies this
      ensures ErrorsFor(validationErrors, formData)
      ensures ok <==> validationErrors == NoErrors
      ensures formData == old(formData) && mediaFiles == old(mediaFiles) && loading == old(loading)
    {
      var f := formData;
      var errors := NoErrors;
      if Blank(f.titles) { errors := errors + {Titles}; }
      if Blank(f.descriptions) { errors := errors + {Descriptions}; }
      if f.locations.lat == "" || f.locations.long == "" { errors := errors + {Locations}; }
      if f.category == "" { errors := errors + {Category}; }
      if f.startDates == "" { errors := errors + {StartDates}; }
      if f.endDates == "" { errors := errors + {EndDates}; }
      validationErrors := errors;
      ok := errors == NoErrors;
    }

    /** `handleChange`: sets the named field and clears that field's error, nothing else. */
    method HandleChange(field: TextField, value: string)
      modifies this
      ensures formData == SetField(old(formData), field, value)
      ensures Get(validationErrors, KeyOf(field)) == None
      ensures forall k :: k != KeyOf(field) ==> Get(validationErrors, k) == Get(old(validationErrors), k)
      ensures mediaFiles == old(mediaFiles) && loading == old(loading)
    {
      formData := SetField(formData, field, value);
      validationErrors := validationErrors - {KeyOf(field)};
    }

    /** `handleCategorySelect`. */
    method HandleCategorySelect(categoryId: string)
      modifies this
      ensures formData == old(formData).(category := categoryId)
      ensures validationErrors == old(validationErrors) && mediaFiles == old(mediaFiles) && loading == old(loading)
    {
      formData := formData.(category := categoryId);
    }

    /** The dropzone's `onDrop`: the new selection replaces the previous one. */
    method OnDrop(acceptedFiles: seq<DroppedFile>)
      modifies this
      ensures mediaFiles == Partition(acceptedFiles)
      ensures formData == old(formData) && validationErrors == old(validationErrors) && loading == old(loading)
    {
      mediaFiles := MediaFiles(Filter(acceptedFiles, IsImage), Filter(acceptedFiles, IsVideo));
    }

    /**
     * `handleSubmit`: an invalid form sends nothing; a valid one sends the
     * body built from the form and the media, and everything is reset only
     * when the reply's message is exactly the success message.
     */
    method HandleSubmit(send: seq<Entry> -> Reply) returns (sent: Option<seq<Entry>>)
      modifies this
      ensures ErrorsFor(validationErrors, old(formData))
      ensures validationErrors != NoErrors ==>
        sent.None? && formData == old(formData) && mediaFiles == old(mediaFiles) && loading == old(loading)
      ensures validationErrors == NoErrors ==>
        sent == Some(Body(old(formData), old(mediaFiles))) && !loading
      ensures sent.Some? && send(sent.value) == Resolved(Some(MsgSubmitted)) ==>
        formData == InitialForm && mediaFiles == NoMediaFiles
      ensures sent.Some? && send(sent.value) != Resolved(Some(MsgSubmitted)) ==>
        formData == old(formData) && mediaFiles == old(mediaFiles)
    {
      var valid := ValidateForm();
      if !valid {
        return None;
      }
      var submissionData := Serialize(formData, mediaFiles);
      loading := true;
      var response := send(submissionData);
      if response.Resolved? && response.message == Some(MsgSubmitted) {
        formData := InitialForm;
        mediaFiles := NoMediaFiles;
      }
      loading := false;
      sent := Some(submissionData);
    }
  }
}
