/**
 A worked submission: three known fields, three photos that all embed,
 and one video.
 */
module SessionFacts {
  import opened Wrappers
  import opened FormFields
  import opened FormFieldsFacts
  import opened PhotoGrid
  import opened PhotoGridFacts
  import opened Session

  function ScenarioEntries(): seq<Entry>
  {
    [Entry("landSize", "1200"), Entry("price", "500000"), Entry("propertyType", "Residential"),
     Entry("photos", "house.jpg"), Entry("video", "tour.mp4")]
  }

  function ScenarioSelection(): Selection
  {
    Selection([Photo("a.jpg", "data:a"), Photo("b.jpg", "data:b"), Photo("c.jpg", "data:c")],
              Some(Video("tour.mp4", "data:v")))
  }

  lemma ScenarioFirstTwo()
    ensures Snapshot(ScenarioEntries()[..2]) == ScenarioEntries()[..2]
  {
    var e := ScenarioEntries();
    assert e[..2][..1] == e[..1];
    assert e[..1][..0] == [];
    assert Collect(e[..1], KeepsField) == [e[0]];
    PutFresh([e[0]], "price", "500000");
  }

  /** The snapshot keeps the three fields in form order and drops the two
      file inputs. */
  lemma ScenarioSnapshot()
    ensures Snapshot(ScenarioEntries()) == ScenarioEntries()[..3]
  {
    var e := ScenarioEntries();
    ScenarioFirstTwo();
    assert e[..3][..2] == e[..2];
    assert Keys(e[..2]) == ["landSize", "price"];
    PutFresh(e[..2], "propertyType", "Residential");
    assert Collect(e[..3], KeepsField) == e[..3];
    assert e[..4][..3] == e[..3];
    assert e[..5] == e;
    assert e[..5][..4] == e[..4];
  }

  /** An embedding library that accepts every photo. */
  predicate AcceptsAll(p: Photo)
  {
    true
  }

  /** The table shows the three fields under their display names. */
  lemma ScenarioTable()
    ensures TableRows(Snapshot(ScenarioEntries())) ==
            [Row("Land Size (sq. ft.)", "1200"), Row("Price (₹)", "500000"), Row("Property Type", "Residential")]
  {
    ScenarioSnapshot();
    var rows := TableRows(ScenarioEntries()[..3]);
    assert rows[0] == Row("Land Size (sq. ft.)", "1200");
    assert rows[1] == Row("Price (₹)", "500000");
    assert rows[2] == Row("Property Type", "Residential");
  }

  /** Three photos that all embed: two in the first row, one in the second. */
  lemma ScenarioGrid(finalY: int)
    ensures var placed := Placed(LayOutPhotos(finalY, [true, true, true]));
            |placed| == 3 && placed[0].row == 0 && placed[1].row == 0 && placed[2].row == 1
  {
    AllEmbedded(finalY, [true, true, true]);
  }

  function ScenarioRun(finalY: int): Submission
  {
    Submit(ScenarioSelection(), ScenarioEntries(), [], finalY, AcceptsAll, false)
  }

  /** The preview shows the three fields under their display names, all
      three photos, and the note naming the video. */
  lemma ScenarioPreview(finalY: int)
    ensures ScenarioRun(finalY).preview.rows ==
              [Row("Land Size (sq. ft.)", "1200"), Row("Price (₹)", "500000"), Row("Property Type", "Residential")]
    ensures ScenarioRun(finalY).preview.photos == Some(ScenarioSelection().photos)
    ensures ScenarioRun(finalY).preview.videoNote.Some?
    ensures NoteName(ScenarioRun(finalY).preview.videoNote.value) == Some("tour.mp4")
  {
    ScenarioTable();
  }

  /** The document puts two photos in the first row and one in the second,
      and the status ends in the success message. */
  lemma ScenarioDocument(finalY: int)
    ensures StatusMessage(ScenarioRun(finalY).shown[1]) == "PDF generated successfully! Check your downloads."
    ensures ScenarioRun(finalY).outcome.download.Some?
    ensures var placed := Placed(ScenarioRun(finalY).outcome.download.value.photos);
            |placed| == 3 && placed[0].row == 0 && placed[1].row == 0 && placed[2].row == 1
  {
    var ok := EmbedFlags(ScenarioSelection().photos, AcceptsAll);
    assert ok == [true, true, true];
    ScenarioGrid(finalY);
  }

  /** A generation failure shows the error message and offers nothing for
      download, while the preview is still built. */
  lemma FailedSubmission(sel: Selection, entries: seq<Entry>, meanwhile: seq<Event>, finalY: int,
                         accepts: Photo -> bool)
    ensures var r := Submit(sel, entries, meanwhile, finalY, accepts, true);
            && StatusMessage(r.shown[|r.shown| - 1]) == "Error generating PDF. Please try again."
            && r.outcome.download == None
  {
  }

  /** A photo whose decode completes between the submit and the delayed
      generation is in the document but not in the preview. */
  lemma LateDecodeReachesDocumentOnly(entries: seq<Entry>, finalY: int, p: Photo)
    ensures var r := Submit(NoSelection, entries, [PhotoLoaded(p)], finalY, AcceptsAll, false);
            && r.preview.photos == None
            && r.outcome.download.Some?
            && Placed(r.outcome.download.value.photos) == [Expected(finalY, [true], 0)]
  {
    var evs := [PhotoLoaded(p)];
    assert evs[..0] == [];
    assert Run(NoSelection, evs[..0]) == NoSelection;
    var sel := Run(NoSelection, evs);
    assert sel == Apply(NoSelection, PhotoLoaded(p));
    assert sel.photos == [p];
    var ok := EmbedFlags(sel.photos, AcceptsAll);
    assert ok == [true];
    SuccessesOfAll([true]);
  }

  /** A photo stored at submit time is gone from the document when a new
      photo choice is made before the delayed generation. */
  lemma LateChoiceEmptiesDocument(entries: seq<Entry>, finalY: int, p: Photo)
    ensures var r := Submit(Selection([p], None), entries, [PhotosChosen], finalY, AcceptsAll, false);
            && r.preview.photos == Some([p])
            && r.outcome.download.Some?
            && r.outcome.download.value.photos == NoPhotos
  {
  }

}
