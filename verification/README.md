# Property listing to PDF: layout and content model

The script `script.js` turns a property-listing form into a downloadable A4
PDF. This project models its logic in Dafny:

- **Photo grid** (`GridGeometry`, `PhotoGrid`, `PhotoGridFacts`): the
  "Property Photos" section of `generatePDF`. The heading goes 10 mm under
  the field table, or to the top of a new page (y = 20) when that would pass
  y = 240. Photos follow 10 mm lower, two per row, 80 × 60 mm, at x = 20 and
  x = 110. A new row starts at every even index but the first, 70 mm lower,
  and moves to a new page at y = 20 when it would start below 240. A photo
  whose `addImage` call throws is skipped without moving the cursor. The
  loop is modelled as a fold (`PhotoGrid.Walk`) over the embed outcome of
  each photo. It is proved equal to a closed-form reference
  (`PhotoGrid.Expected`, built on `GridGeometry.RowCursor`), which places
  photo i in row i / 2, at a page and y that depend only on the table's end
  and on i. Bounds, columns, independence from failures and non-overlap
  follow from that.
- **Field snapshot and table** (`FormFields`, `FormFieldsFacts`): the submit
  handler copies every form entry except the `photos` and `video` inputs
  into a plain object. The table then has one `[label, value]` row per
  property, in object order. The label is the display name for the seven
  known fields and the key itself otherwise.
- **Selection and outcome** (`Session`, `SessionFacts`): a new choice in a
  file input empties the stored photos or video, and each decode
  completion appends or sets its result. The HTML preview has a photos
  section only when photos are stored and a video note only when a video
  is. Generation ends in the success message with a document, or in the
  error message with none.

Positions are integer millimetres. Pages are numbered relative to the page
on which the field table ends. The table's final y, whether each photo
embeds, and whether generation throws come from the PDF library, so they
are inputs of the model.

`generatePDF` never writes the video note into the PDF (script.js:184-264).
Only the HTML preview built by `createPdfPreviewContent` carries it
(script.js:177-180), so `Session.Document` has no video note.

The thresholds do not keep photos on the page. A first row may start at
y = 250, and any later row at y = 240, so the bottom edge of a photo can
reach 310 mm on a 297 mm page (`PhotoGridFacts.PhotoCanPassPageBottom`).
The model keeps the script's thresholds.

## Model

| member | source | states |
|---|---|---|
| `GridGeometry.SectionHeading` | script.js:224-233 | The heading baseline is never below 240. It stays on the table's page, at finalY + 10, exactly when that is at most 240. Otherwise it goes to the next page at y = 20. |
| `GridGeometry.FirstRow` | script.js:232-239 | The first photo starts at the margin, on the heading's page, 10 below the heading, and so at most 250 down. |
| `GridGeometry.RowBreak` | script.js:243-251 | A row break returns to the margin, moves one row down, and lands at or above 240. It stays on the page exactly when the new y is at most 240; otherwise it goes to the next page. |
| `GridGeometry.RowsOnFirstPage` | script.js:243-251 | Counts the rows laid from a given y before the first page break: at least one, each later row starting at or above 240, and the next one past it. |
| `GridGeometry.RowBreakAdvancesRow` | script.js:243-251 | One row break takes the closed-form position of row r to that of row r + 1, so the step-by-step breaks and the closed form agree. |
| `GridGeometry.RowBounds` | script.js:227-251 | Every row starts at most 250 down, every row after the first at most 240, and at least 20 down when the table ends on the page. No row is on a page before the heading's. |
| `GridGeometry.RowsSeparated` | script.js:243-251 | A later row is on a later page, or on the same page at least 70 lower. |
| `PhotoGrid.Successes` | script.js:254-259 | The photos that embed, as indices in ascending order: exactly those whose embed succeeded. |
| `PhotoGrid.WalkCursor` | script.js:239-260 | After the loop has handled photos 0..n-1, the cursor is in row (n-1)/2 at its closed-form page and y. It is one column step right of the margin for each photo of that row that embedded. |
| `PhotoGrid.AdvanceToReference` | script.js:243-252 | Before photo i is embedded, the cursor is at photo i's reference position. |
| `PhotoGrid.WalkMatchesReference` | script.js:241-260 | The loop places exactly the photos that embedded, in index order, each at its reference page, row, x and y. |
| `PhotoGrid.LayOutPhotos` | script.js:223-261 | No photos means no section and no page added. Otherwise the heading is where SectionHeading puts it. The placements are the embedded photos at their reference positions, and the pages added are the page of the last row. |
| `PhotoGridFacts.PlacedAt` | script.js:254-256 | Every photo whose embed succeeds gets a placement at its reference position. |
| `PhotoGridFacts.HeadingAndFirstRow` | script.js:224-233 | The heading is at finalY + 10 on the table's page, or at y = 20 on the next page when finalY + 10 > 240. First-row photos are 10 under it on its page, and no photo is on an earlier page. |
| `PhotoGridFacts.PlacementBounds` | script.js:227-251 | Every photo starts at most 250 down, and at most 240 outside the first row. It starts at least 20 down when the table ends on the page. No photo is past the last page added. |
| `PhotoGridFacts.ColumnsFollowEmbeds` | script.js:241-259 | Photo i is in row i / 2. It is in the second column (x = 110) exactly when i is odd and photo i - 1 embedded; otherwise it is at x = 20. |
| `PhotoGridFacts.FailuresDoNotShiftRows` | script.js:241-259 | Under two failure patterns, a photo that embeds in both lands on the same page, row and y: row breaks depend on the index, not on how many embeds succeeded. |
| `PhotoGridFacts.FailuresKeepColumns` | script.js:241-259 | Under two failure patterns, a photo that embeds in both has the same x when it starts its row or the photo before it fared alike. |
| `PhotoGridFacts.AllEmbedded` | script.js:236-256 | When every embed succeeds, photo i is the i-th placement, in row i / 2, at x = 20 for even i and x = 110 for odd i. The grid has ceil(n / 2) rows. |
| `PhotoGridFacts.NoOverlap` | script.js:236-256 | No two placed photos overlap: they are on different pages or their 80 × 60 rectangles are disjoint. |
| `PhotoGridFacts.ExpectedDisjoint` | script.js:236-256 | The reference positions of two photos, the first of which embedded, never overlap on a page. |
| `PhotoGridFacts.ThreePhotoGrid` | script.js:223-260 | Below a table ending at 60, three photos go to (20, 80), (110, 80) and (20, 150) on the table's page, and no page is added. |
| `PhotoGridFacts.PhotoCanPassPageBottom` | script.js:224-237 | A table ending at 230 puts the first photo at y = 250, so its bottom edge passes the 297 mm page height. |
| `FormFields.Put` | script.js:107 | Assigning a key keeps keys distinct. An existing key keeps its place, and a new key is appended. |
| `FormFields.PutLookup` | script.js:107 | After the assignment, the key holds the new value and every other key holds its old value. |
| `FormFields.Collect` | script.js:105-109 | The copy loop yields an object whose keys are distinct. |
| `FormFields.TableRows` | script.js:209-211 | One row per snapshot entry, in snapshot order. The first cell is the field's display name for the seven known keys and the key verbatim otherwise; the second cell is the value. |
| `FormFieldsFacts.CollectKeyOrder` | script.js:105-109 | Snapshot keys appear in the order of their first admitted occurrence in the form. |
| `FormFieldsFacts.CollectValues` | script.js:105-109 | An admitted key holds the value of its last entry in the form. A key that is not admitted is absent. |
| `FormFieldsFacts.CollectDistinct` | script.js:105-109 | When no admitted key repeats, the snapshot is exactly the admitted entries in form order. |
| `FormFieldsFacts.PutFresh` | script.js:107 | Assigning a key the object does not have appends that entry at the end. |
| `FormFieldsFacts.SnapshotContents` | script.js:105-109 | A key is in the snapshot exactly when some form entry has it and it is neither `photos` nor `video`. Its value is that of its last entry, and keys keep first-occurrence order. |
| `FormFieldsFacts.SnapshotOfDistinctFields` | script.js:105-109 | A form without repeated field names yields exactly its non-file entries, in form order. |
| `FormFieldsFacts.ProtoFieldLost` | script.js:105-109 | A field named `__proto__` is missing from the script's snapshot but present in the intended one. |
| `FormFieldsFacts.SnapshotsAgreeWithoutProto` | script.js:105-109 | Without a `__proto__` field, the script's snapshot and the intended one are equal. |
| `FormFieldsFacts.LabelsAgreeOffPrototype` | script.js:199-210 | The script's label lookup agrees with the intended label on every key except names inherited from Object.prototype. For those it yields the inherited member instead of the key. |
| `Session.PhotosSinceLastChoice` | script.js:7-27 | After a new photo choice, the stored photos are exactly those decoded since, in completion order. Nothing stored before the choice survives; decodes of the earlier choice that complete after it are still appended. |
| `Session.SelectionForgetsHistory` | script.js:7-60 | Once a photo choice (video choice) has happened, the stored photos (video) no longer depend on the state before it. |
| `Session.NoteNameRoundTrip` | script.js:177-180 | The video file name can be read back out of the note's markup. |
| `Session.PreviewContent` | script.js:120-182 | The preview has the title and the table rows. It has a photos section, listing all stored photos, exactly when photos are stored. It has a note naming the video exactly when a video is stored. |
| `Session.GeneratePdf` | script.js:184-288 | Without a generation failure: a success status and a download named `property-details.pdf`, with the table rows, and a photos section exactly when photos are stored, placing only photos that embed. With a failure: an error status and no download. |
| `Session.Submit` | script.js:70-117 | The loading status comes first, then the outcome's. The preview and the document share the same table, built from the snapshot of the form. The preview shows the photos stored at submit time; the document shows those stored when the delayed generation runs, and the two agree on whether there are photos when nothing happens in between. |
| `SessionFacts.ScenarioSnapshot` | script.js:105-109 | Land size, price and type, plus the two file inputs, give a snapshot of the three fields in form order. |
| `SessionFacts.ScenarioTable` | script.js:199-211 | The three-field scenario gives the rows "Land Size (sq. ft.)", "Price (₹)" and "Property Type" with their values. |
| `SessionFacts.ScenarioGrid` | script.js:236-256 | Three photos that all embed give two placements in the first row and one in the second. |
| `SessionFacts.ScenarioPreview` | script.js:120-182 | The scenario's preview shows the three labelled rows, all three photos, and a note naming `tour.mp4`. |
| `SessionFacts.ScenarioDocument` | script.js:184-268 | The scenario's document places photos in rows 0, 0 and 1, and the status ends in the success message. |
| `SessionFacts.LateDecodeReachesDocumentOnly` | script.js:113-117 | A photo decoded between the submit and the delayed generation is placed in the document but absent from the preview. |
| `SessionFacts.LateChoiceEmptiesDocument` | script.js:113-117 | A new photo choice between the submit and the delayed generation leaves the document without photos while the preview still shows the earlier ones. |
| `SessionFacts.FailedSubmission` | script.js:278-286 | A generation failure ends in "Error generating PDF. Please try again." and offers no download. |

## Findings

| source | as written | input that shows it | evidently intended | confidence | as-written member | corrected member |
|---|---|---|---|---|---|---|
| script.js:150, script.js:210 | `fieldNames[key] \|\| key` also finds members every object inherits, so such a key is labelled with a function or object instead of its name | a form field named `toString` or `constructor` | any key outside the seven known fields is shown verbatim | not executed; certain for the JavaScript lookup rules, unlikely in practice because the form's field names are fixed by its markup | `FormFieldsFacts.LabelsAgreeOffPrototype` | `FormFields.TableRows` |
| script.js:107 | `formDataObj[key] = value` with key `__proto__` and a string value is ignored, so that field never reaches the table | a form field named `__proto__` | every entry except `photos` and `video` is kept | not executed; certain for the JavaScript assignment rules, unlikely in practice because the form's field names are fixed by its markup | `FormFieldsFacts.ProtoFieldLost` | `FormFieldsFacts.SnapshotContents` |

The rest of the model uses the corrected members `FormFields.Snapshot` and
`FormFields.Label`. The as-written versions are `FormFields.SnapshotAsWritten`
and `FormFields.LabelAsWritten`.

## Left out

- DOM work (the modal, the preview `<img>` and `<video>` elements, the close button): it is UI only. The preview is modelled as its content.
- FileReader decoding: it is asynchronous, so the order in which decodes complete is an input, as a sequence of events. A completion that arrives after a newer choice is appended like any other, as in the script. Decode failures are not modelled because the script has no handler for them.
- jsPDF and autoTable internals (fonts, text, lines, how the table's final y is computed, `save`): these are foreign library calls. The table's final y, each photo's embed outcome and a generation-level failure are inputs. Pages the table itself adds are not counted: pages are numbered from the table's last page.
- The table's final y is fractional in jsPDF; the model uses integer millimetres.
- The `setTimeout` delays, the hiding of the status line and the removal of the modal: these are timers and styling. Only the status messages are modelled. The 500 ms delay before generation is kept only as its effect: the events that happen during it are an argument of `Session.Submit`, not a duration.
- The title's horizontal centre, which uses the fractional page width and does not affect the layout.
- The image format argument and the image data are not modelled; the embed outcome stands for them.
- Enumeration order of integer-like object keys: JavaScript lists keys such as `"1"` before other keys. The snapshot keeps insertion order for every key, which agrees with JavaScript for the seven known field names, none of which is numeric.
- FormFields.LabelAsWritten: gives only the name of an inherited member, not the function or object the script actually obtains.
- Session.GeneratePdf: states only that placements are photos that embed; their exact positions are stated by `PhotoGrid.LayOutPhotos`, which it returns unchanged.
