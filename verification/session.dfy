/**
 The page's selection state, the HTML preview built on submit, and the
 outcome of generating the document.

 File decoding completes asynchronously; the model takes the order in
 which decodes complete as given, as a sequence of events.
 */
module Session {
  import opened Wrappers
  import opened FormFields
  import opened PhotoGrid

  datatype Photo = Photo(name: string, dataUrl: string)
  datatype Video = Video(name: string, dataUrl: string)

  /** `photoDataUrls` and `videoDataUrl`. */
  datatype Selection = Selection(photos: seq<Photo>, video: Option<Video>)

  const NoSelection: Selection := Selection([], None)

  /** What happens to the selection state: a new choice in one of the two
      file inputs, or the completion of one file's decode. */
  datatype Event =
    | PhotosChosen
    | PhotoLoaded(photo: Photo)
    | VideoChosen
    | VideoLoaded(video: Video)

  /** The `change` handlers empty their stored value; each decode
      completion stores its result. */
  function Apply(s: Selection, ev: Event): Selection
  {
    match ev
    case PhotosChosen => s.(photos := [])
    case PhotoLoaded(p) => s.(photos := s.photos + [p])
    case VideoChosen => s.(video := None)
    case VideoLoaded(v) => s.(video := Some(v))
  }

  function Run(s: Selection, evs: seq<Event>): Selection
    decreases |evs|
  {
    if |evs| == 0 then s else Apply(Run(s, evs[..|evs| - 1]), evs[|evs| - 1])
  }

  /** The photos decoded in `evs`, in completion order. */
  function LoadedPhotos(evs: seq<Event>): seq<Photo>
    decreases |evs|
  {
    if |evs| == 0 then []
    else LoadedPhotos(evs[..|evs| - 1]) + (if evs[|evs| - 1].PhotoLoaded? then [evs[|evs| - 1].photo] else [])
  }

  /** After a new photo choice, the stored photos are exactly those decoded
      since, in completion order: nothing stored before the choice
      survives. A decode of an earlier choice that completes after it is
      still appended, since the reader callbacks are not cancelled. */
  lemma {:induction false} PhotosSinceLastChoice(s: Selection, before: seq<Event>, after: seq<Event>)
    requires PhotosChosen !in after
    ensures Run(s, before + [PhotosChosen] + after).photos == LoadedPhotos(after)
    decreases |after|
  {
    var evs := before + [PhotosChosen] + after;
    if |after| == 0 {
      assert evs[..|evs| - 1] == before;
    } else {
      var pre := after[..|after| - 1];
      assert evs[..|evs| - 1] == before + [PhotosChosen] + pre;
      assert PhotosChosen !in pre by {
        assert forall e :: e in pre ==> e in after;
      }
      PhotosSinceLastChoice(s, before, pre);
    }
  }

  /** The stored selection depends on the history only through the events
      after the last choice: two pages that saw the same events since a
      photo (video) choice hold the same photos (video). */
  lemma {:induction false} SelectionForgetsHistory(s: Selection, t: Selection, evs: seq<Event>)
    ensures PhotosChosen in evs ==> Run(s, evs).photos == Run(t, evs).photos
    ensures VideoChosen in evs ==> Run(s, evs).video == Run(t, evs).video
    decreases |evs|
  {
    if |evs| > 0 {
      var pre := evs[..|evs| - 1];
      SelectionForgetsHistory(s, t, pre);
      assert evs == pre + [evs[|evs| - 1]];
    }
  }

  const Title: string := "Property Details"
  const PhotosHeading: string := "Property Photos"
  const FileName: string := "property-details.pdf"

  const NotePrefix: string := "<strong>Note:</strong> Video file \""
  const NoteSuffix: string := "\" is attached but not shown in PDF."

  /** The markup of the preview's video note. The file name is inserted
      into the markup as is. */
  function VideoNote(name: string): string
  {
    NotePrefix + name + NoteSuffix
  }

  /** Reads the file name back out of a video note. */
  function NoteName(note: string): Option<string>
  {
    if |note| >= |NotePrefix| + |NoteSuffix| &&
       note[..|NotePrefix|] == NotePrefix &&
       note[|note| - |NoteSuffix|..] == NoteSuffix
    then Some(note[|NotePrefix|..|note| - |NoteSuffix|])
    else None
  }

  lemma NoteNameRoundTrip(name: string)
    ensures NoteName(VideoNote(name)) == Some(name)
  {
    var note := VideoNote(name);
    assert note[..|NotePrefix|] == NotePrefix;
    assert note[|note| - |NoteSuffix|..] == NoteSuffix;
    assert note[|NotePrefix|..|note| - |NoteSuffix|] == name;
  }

  /** The HTML preview: title, the field table, the photos section only
      with photos, and the video note only with a video. */
  datatype Preview = Preview(title: string, rows: seq<Row>, photos: Option<seq<Photo>>, videoNote: Option<string>)

  function PreviewContent(sel: Selection, snapshot: seq<Entry>): (p: Preview)
    ensures p.title == Title
    ensures p.rows == TableRows(snapshot)
    ensures p.photos.Some? <==> |sel.photos| > 0
    ensures p.photos.Some? ==> p.photos.value == sel.photos
    ensures p.videoNote.Some? <==> sel.video.Some?
    ensures sel.video.Some? ==> NoteName(p.videoNote.value) == Some(sel.video.value.name)
  {
    var photos := if |sel.photos| > 0 then Some(sel.photos) else None;
    if sel.video.Some? then
      NoteNameRoundTrip(sel.video.value.name);
      Preview(Title, TableRows(snapshot), photos, Some(VideoNote(sel.video.value.name)))
    else
      Preview(Title, TableRows(snapshot), photos, None)
  }

  /** The generated document. It carries no video note: only the preview
      mentions the video. */
  datatype Document = Document(title: string, rows: seq<Row>, photos: PhotoSection, fileName: string)

  datatype Status = Loading | Succeeded | Failed

  function StatusMessage(st: Status): string
  {
    match st
    case Loading => "Generating PDF... Please wait."
    case Succeeded => "PDF generated successfully! Check your downloads."
    case Failed => "Error generating PDF. Please try again."
  }

  /** What the status line shows and what is offered for download. */
  datatype Outcome = Outcome(status: Status, download: Option<Document>)

  /** Whether `addImage` accepts each selected photo, in selection order. */
  function EmbedFlags(photos: seq<Photo>, accepts: Photo -> bool): seq<bool>
  {
    seq(|photos|, i requires 0 <= i < |photos| => accepts(photos[i]))
  }

  /** `generatePDF`. The table's final y and the embed outcome of each photo
      come from the document library, as does `throws`: whether anything
      outside the per-photo embed fails, which aborts the whole document. */
  function GeneratePdf(sel: Selection, snapshot: seq<Entry>, finalY: int,
                       accepts: Photo -> bool, throws: bool): (o: Outcome)
    ensures o.download.Some? <==> !throws
    ensures o.status == (if throws then Failed else Succeeded)
    ensures o.download.Some? ==> o.download.value.rows == TableRows(snapshot)
    ensures o.download.Some? ==> o.download.value.fileName == FileName
    ensures o.download.Some? ==> (o.download.value.photos == NoPhotos <==> |sel.photos| == 0)
    ensures o.download.Some? ==>
              forall k :: 0 <= k < |Placed(o.download.value.photos)| ==>
                Placed(o.download.value.photos)[k].index < |sel.photos| &&
                accepts(sel.photos[Placed(o.download.value.photos)[k].index])
  {
    if throws then Outcome(Failed, None)
    else
      var ok := EmbedFlags(sel.photos, accepts);
      var section := LayOutPhotos(finalY, ok);
      Outcome(Succeeded, Some(Document(Title, TableRows(snapshot), section, FileName)))
  }

  /** One form submission: the loading message, then the preview built
      from the snapshot, then the generation outcome. */
  datatype Submission = Submission(shown: seq<Status>, preview: Preview, outcome: Outcome)

  /** The submit handler. The preview is built from the selection at
      submit time; the document is generated half a second later and reads
      the stored photos as they are then, after the events `meanwhile`
      have been applied. The snapshot is taken once and shared by both. */
  function Submit(sel: Selection, entries: seq<Entry>, meanwhile: seq<Event>, finalY: int,
                  accepts: Photo -> bool, throws: bool): (r: Submission)
    ensures r.shown == [Loading, r.outcome.status]
    ensures r.outcome.download.Some? ==> r.outcome.download.value.rows == r.preview.rows
    ensures r.preview.rows == TableRows(Snapshot(entries))
    ensures r.preview.photos.Some? <==> |sel.photos| > 0
    ensures r.outcome.download.Some? ==>
              (r.outcome.download.value.photos == NoPhotos <==> |Run(sel, meanwhile).photos| == 0)
    ensures |meanwhile| == 0 && r.outcome.download.Some? ==>
              (r.outcome.download.value.photos == NoPhotos <==> r.preview.photos == None)
  {
    var snapshot := Snapshot(entries);
    var o := GeneratePdf(Run(sel, meanwhile), snapshot, finalY, accepts, throws);
    Submission([Loading, o.status], PreviewContent(sel, snapshot), o)
  }

}
