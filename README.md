# XR curation: curator decisions, box annotation and mask viewing

This project models the decision logic of an XR museum guide and of its
image-segmentation tools, and proves properties of that logic in Dafny.

- **Curator** (`curator.dfy`, from `quration_npc.py`). The `CuratorNPC` decides,
  for each visitor request, which prompt template to render with which
  arguments, or which fixed message to answer with. Its registries of prompt
  templates and of per-artwork retrieval chains are maps built by loops over a
  directory listing. The language model and the retrieval chain are opaque, so
  a reply is a datatype that names what would be sent to them:
  `Fixed | Generate(prompt) | RunChain(chain, question) | Raises(error)`.
  The random pick of an artwork is a nondeterministic choice.
- **Box annotator** (`annotator.dfy`, from `vision/get_box.py`). The
  `ImageBoundingBoxApp` is a class whose click points and boxes are `seq`
  fields. It has a click state machine (two points make a box numbered one
  more than the boxes before it), reset, clear, image loading and the save
  payload. It also has the mapping from label coordinates to image pixels.
- **Mask viewer** (`mask_viewer.dfy`, from `vision/contour_gui.py`). This part
  covers:
  - ray-casting point-in-polygon over a flat coordinate list, and the lookup of
    the first mask under a point;
  - the search by name, with the parser for the language model's
    comma-separated reply;
  - the drawing styles and the polygons drawn;
  - the highlight list, the listbox row and id mapping, the colour palette and
    the loading of masks 1..11 from their files.

  `SegmentationViewer` is a class over the viewer's fields. Coordinates are
  exact reals.
- **Box to mask** (`box_to_seg.dfy`, from `vision/box_to_seg.py`). This part
  covers:
  - the conversion of `(x, y, width, height)` boxes to corner boxes, and its
    inverse;
  - the mask file names and the output directory, with `str.replace` and
    `os.path.join` written out;
  - proofs that the annotator's boxes land in distinct files, and that for a
    plain artwork name (not empty, no `.jpg` in it, no leading or trailing
    `/`) those are the files the viewer reads; for a name ending in `.jpg`
    they are not.
- `decimal.dfy` holds `str(n)`, `int(s)` and `f"{n:04d}"` on integers.
- `wrappers.dfy` holds `Option` and `Result`.

## Model

| member | source | states |
|---|---|---|
| Curator.Stem | quration_npc.py:44-45 | The key is the text before the first `.`: a prefix of the file name that holds no `.`, and is followed by `.` when shorter than the name |
| Curator.PromptRegistryKeys | quration_npc.py:42-47 | A name is a template key exactly when some `.txt` file in the listing has that stem |
| Curator.PromptRegistryLastWins | quration_npc.py:42-47 | A `.txt` file's contents are the template for its stem unless a later file has the same stem |
| Curator.BuildPrompts | quration_npc.py:42-47 | The `__init__` loop builds exactly the registry of the listing |
| Curator.RagLoopFailsIffSomeRaises | quration_npc.py:51-81 | Setting up the chains fails exactly when loading some `.txt` document raises |
| Curator.RagRegistryAllOrNothing | quration_npc.py:79-81 | One document that raises leaves the registry empty, discarding the chains built before it |
| Curator.RagLoopKeys | quration_npc.py:55-75 | Without an exception, an artwork has a chain exactly when a `.txt` file with its stem loads non-empty documents; the chain comes from a `.txt` file with that stem and holds documents |
| Curator.RagLoopChains | quration_npc.py:55-75 | Without an exception, the chain under an artwork is the one built from the last `.txt` file with its stem that loads documents, and it holds exactly that file's documents |
| Curator.RagLoopLastWins | quration_npc.py:55-75 | A `.txt` file that loads documents supplies the chain for its stem unless a later such file has the same stem |
| Curator.RagLoopFailurePersists | quration_npc.py:79-81 | Once a prefix of the listing has failed, the whole setup fails |
| Curator.SetupRag | quration_npc.py:51-81 | `_setup_rag`'s loop with its early exit returns exactly the registry, and an empty map when the listing itself raises |
| Curator.NewCurator | quration_npc.py:33-49 | Fewer than two sections raise the index error; two or more always succeed, and the curator holds the two section descriptions and both registries |
| Curator.MissingTemplateRendersEmpty | quration_npc.py:94 | A template name missing from the registry renders the empty template |
| Curator.SectionNarration | quration_npc.py:114-126 | A truthy previous work selects the history template, which gets `previous_work`; `None` or `""` selects the initial template; both get the two section descriptions and the current section |
| Curator.SectionRequestUsesLastViewed | api.py:78 | The request handler passes the last viewed artwork, or `None` when there is none |
| Curator.FindSection | quration_npc.py:138 | The section found is the first whose level matches; none is found exactly when no level matches |
| Curator.Unviewed | quration_npc.py:145 | An artwork is offered exactly when it is in the section and not viewed |
| Curator.UnviewedIsSubsequence | quration_npc.py:145 | The offered artworks keep the section's order |
| Curator.ArtworkAttractionNarration | quration_npc.py:129-155 | An unknown section gives the invalid-section message and all viewed gives the all-viewed message, with no model call; otherwise the prompt names an artwork of the section that was not viewed |
| Curator.AllViewedIffCovered | quration_npc.py:142-148 | The all-viewed message is given exactly when every artwork of the section was viewed |
| Curator.PairKey | quration_npc.py:172-178 | The key `art-prev` is tried before `prev-art`, and a key is found only if it is in the comparison data |
| Curator.ArtworkNarration | quration_npc.py:187-207 | The call can only raise on the comparison path: history present and empty memory |
| Curator.ArtworkNarrationCases | quration_npc.py:196-207 | The four cases: history and empty memory compare with the last viewed artwork, raising exactly when neither key is in the comparison data; no history and empty memory use the initial template; any memory uses the additional template with the artwork and the memory |
| Curator.AdditionalIgnoresHistory | quration_npc.py:200-207 | With a non-empty memory the history does not affect the reply |
| Curator.ArtworkNarrationWithHistory | quration_npc.py:171-180 | The call raises exactly when neither `art-prev` nor `prev-art` is in the comparison data; otherwise the history template gets the artwork, the previous work and a key that is in the data |
| Curator.ComparisonPassesKey | quration_npc.py:176-180 | The template receives the matched key string `art-prev`, not the stored comparison text |
| Curator.ComparisonFallsBackToReversedKey | quration_npc.py:176-180 | Without `art-prev` but with `prev-art`, the key string `prev-art` is passed |
| Curator.AnswerQuestionWithRag | quration_npc.py:210-220 | An empty registry answers the not-set-up message before any artwork check; an unknown artwork answers the no-information message; only otherwise is that artwork's chain run on the question |
| Curator.AnswerUsesOwnDocument | quration_npc.py:210-220 | Over a registry built from a listing, a question about an artwork runs the chain holding the documents of the last `.txt` file with that artwork's stem |
| BoxAnnotator.BoxFromPoints | vision/get_box.py:149-171 | The box has the given id and non-negative size, holds both points, and its sides run through the points' coordinates |
| BoxAnnotator.BoxIsTightest | vision/get_box.py:154-171 | Every box holding both points holds the created box |
| BoxAnnotator.BoxIgnoresClickOrder | vision/get_box.py:154-171 | The order of the two clicks does not matter |
| BoxAnnotator.ToImageCoordinates | vision/get_box.py:120-147 | A click maps to a pixel exactly when it falls on the displayed pixmap, and the pixel lies within the image |
| BoxAnnotator.ScaleBelow | vision/get_box.py:137-145 | Scaling a position below the displayed size gives a pixel below the original size |
| BoxAnnotator.DivBelow | vision/get_box.py:137-145 | Floor division of a value below `q * d` by `d` stays below `q` |
| BoxAnnotator.AppendKeepsIdsConsecutive | vision/get_box.py:166-174 | Appending the box numbered count + 1 keeps the boxes numbered 1..n |
| BoxAnnotator.ConsecutiveIdsAreDistinct | vision/get_box.py:166 | Boxes numbered 1..n have distinct ids |
| BoxAnnotator.ImageBoundingBoxApp.constructor | vision/get_box.py:9-18 | No image, no points, no boxes |
| BoxAnnotator.ImageBoundingBoxApp.LoadImage | vision/get_box.py:71-93 | A cancelled dialog changes nothing; a loaded image empties both lists |
| BoxAnnotator.ImageBoundingBoxApp.CreateBoundingBox | vision/get_box.py:149-177 | Exactly two pending points append their box, numbered one more than the count, and clear the points; otherwise nothing changes |
| BoxAnnotator.ImageBoundingBoxApp.OnImageClick | vision/get_box.py:96-118 | A click without an image, off the pixmap, or mapping to pixel (0, 0), which `if image_pos:` reads as a false null `QPoint`, changes nothing; the first accepted point is recorded; the second makes a box and empties the points; at most one point stays pending |
| BoxAnnotator.ImageBoundingBoxApp.ResetCurrentPoints | vision/get_box.py:252-256 | The points are emptied and the boxes kept |
| BoxAnnotator.ImageBoundingBoxApp.ClearAllBoxes | vision/get_box.py:258-276 | Nothing to clear, or no confirmation, changes nothing; confirmation empties both lists |
| BoxAnnotator.TwoClicksMakeOneBox | vision/get_box.py:96-118 | On a fresh image, two clicks that map to pixels other than (0, 0) make box number 1 from those pixels and leave no point pending |
| BoxAnnotator.ClickOnOriginIsDropped | vision/get_box.py:109 | A first click that maps to pixel (0, 0) is dropped, so a second click only becomes the pending point and no box is made |
| BoxAnnotator.ImageBoundingBoxApp.SaveAllBoxes | vision/get_box.py:278-316 | No boxes means nothing to save; a cancelled dialog saves nothing; otherwise the payload holds the image path and size, every box, numbered 1..n, and their count |
| Decimal.NatToString | vision/contour_gui.py:255 | `str(n)` is a non-empty digit string with no leading zero |
| Decimal.Format04d | vision/box_to_seg.py:98 | `f"{n:04d}"` has at least four characters |
| Decimal.NatToStringValue | vision/contour_gui.py:454 | `int` reads back the number `str` writes |
| Decimal.ZeroPadValue | vision/contour_gui.py:255 | Zero padding does not change the value denoted |
| Decimal.Format04dInjective | vision/box_to_seg.py:98 | Distinct ids get distinct padded names, negative ids included |
| Decimal.Format04dWidth | vision/contour_gui.py:255 | Ids 0..9999 get exactly four digits |
| MaskViewer.PointInPolygon | vision/contour_gui.py:378-399 | The loop returns the parity of the edges passing the crossing test, over all n edges including the closing one; fewer than three vertices give false; the intersection is only read on the edge it was computed for |
| MaskViewer.AboveAllVerticesCrossesNothing | vision/contour_gui.py:390-391 | A point above every vertex crosses no edge, so it is outside |
| MaskViewer.RightOfAllVerticesCrossesNothing | vision/contour_gui.py:392 | A point right of every vertex crosses no edge, so it is outside |
| MaskViewer.HorizontalEdgeNeverCrosses | vision/contour_gui.py:390-395 | A horizontal edge never passes the test, so the division is never by zero |
| MaskViewer.UnitSquareExample | vision/contour_gui.py:378-399 | The unit square holds its centre and not a point to its right |
| MaskViewer.MaskAtIsFirstHit | vision/contour_gui.py:401-406 | The mask found is the first, in order, whose polygon holds the point; none is found exactly when no polygon holds it |
| MaskViewer.FindMaskAtPoint | vision/contour_gui.py:401-406 | The loop returns the first hit |
| MaskViewer.Lower | vision/contour_gui.py:415 | Lower-casing maps each character and keeps the length |
| MaskViewer.Strip | vision/contour_gui.py:410 | The result is empty exactly when the term is all white space, as `str.isspace` defines it; otherwise it neither starts nor ends with white space |
| MaskViewer.StripIsTrimmedSlice | vision/contour_gui.py:410 | The term is the result with only white space before and after it |
| MaskViewer.IsSubstringOccurs | vision/contour_gui.py:420 | `t in s` holds exactly when `t` occurs at some position of `s` |
| MaskViewer.DirectMatchesMembers | vision/contour_gui.py:414-421 | The direct matches are exactly the masks whose lower-cased name contains the lower-cased term |
| MaskViewer.Split | vision/contour_gui.py:452 | Splitting gives at least one piece and no piece holds the separator |
| MaskViewer.JoinSplit | vision/contour_gui.py:452 | Splitting loses no character |
| MaskViewer.SplitJoin | vision/contour_gui.py:452 | Separator-free pieces are recovered by splitting their join |
| MaskViewer.ParseIntShow | vision/contour_gui.py:454 | `int` reads back every number `str` writes, negative ones included |
| MaskViewer.ParseAll | vision/contour_gui.py:454 | A reply parses exactly when every piece, stripped, is a number; the ids are then those numbers, one per piece, in order |
| MaskViewer.BadPieceGivesNoMatches | vision/contour_gui.py:450-457 | A reply other than `none` with one piece that is not a number gives no matches, because the comprehension raises and the list stays empty |
| MaskViewer.SearchMasksByName | vision/contour_gui.py:408-457 | A blank term gives no results; otherwise the direct matches in order; only when there are none, the ids of the reply, where `none`, a failed call or any unparsable piece gives none |
| MaskViewer.ReplyRoundTrip | vision/contour_gui.py:450-455 | A reply listing ids as `1,4` yields exactly those ids |
| MaskViewer.MaskStyle | vision/contour_gui.py:344-364 | A highlighted mask is filled with width 3 and no stipple; in highlight mode other masks get `gray12` and width 1; otherwise `gray25` and width 2; the outline is the mask's colour |
| MaskViewer.DrawnItemsContents | vision/contour_gui.py:338-376 | Exactly the masks with at least three vertices are drawn, each tagged and styled by its own highlight status |
| MaskViewer.DrawnItemsKeys | vision/contour_gui.py:338-376 | Nothing but loaded, drawable masks is drawn |
| MaskViewer.HighlightList | vision/contour_gui.py:548-551 | The search results come first, then the hovered mask only when it is set and not among them |
| MaskViewer.HighlightListAddsNoDuplicate | vision/contour_gui.py:549-551 | When the results repeat no id, neither does the highlight list: the hovered mask is never appended twice. Results that repeat an id, as a reply `2,2` gives, keep the repeat |
| MaskViewer.ColorOf | vision/contour_gui.py:279 | Every mask's colour is from the palette |
| MaskViewer.ColorsCycle | vision/contour_gui.py:279 | Colours repeat every eleven masks |
| MaskViewer.FirstMasksHaveDistinctColors | vision/contour_gui.py:40-44 | Masks 1..11 take the palette in order, so no two share a colour |
| MaskViewer.LoadedMasksOrdered | vision/contour_gui.py:254-281 | Loaded masks have ids in 1..11, in increasing order, each with its palette colour |
| MaskViewer.LoadedMasksExactly | vision/contour_gui.py:254-286 | Mask `i` is loaded exactly when its file yields a contour |
| MaskViewer.LoadedMasksDistinct | vision/contour_gui.py:275 | No id is loaded twice |
| MaskViewer.ListboxIds | vision/contour_gui.py:200-202 | The listbox shows exactly the ids in 1..11 that have a name, in increasing order |
| MaskViewer.UnnamedMaskShiftsSelection | vision/contour_gui.py:200-202 | With masks 1 and 3 named, the second row shows mask 3 while `selection[0] + 1` at line 317 picks mask 2: the row arithmetic assumes every mask is named |
| MaskViewer.ListboxRowsMatchWhenNamed | vision/contour_gui.py:200-202 | When masks 1..k all have names, row `r` shows mask `r + 1`, and row `id - 1`, the one `selection_set` picks, shows mask `id` |
| MaskViewer.SegmentationViewer.constructor | vision/contour_gui.py:47-51 | No masks, nothing drawn, no hover, no results, empty search text |
| MaskViewer.SegmentationViewer.LoadMaskData | vision/contour_gui.py:243-286 | The masks loaded are those of the files 1..11 that yield a contour, with distinct ids |
| MaskViewer.SegmentationViewer.DrawAllMasks | vision/contour_gui.py:331-376 | The drawn polygons are replaced by those of every drawable mask in the requested mode |
| MaskViewer.SegmentationViewer.PerformSearch | vision/contour_gui.py:542-575 | The search text and results are recorded; results are drawn highlighted together with the hovered mask; no results draw every mask plainly |
| MaskViewer.SegmentationViewer.ClearSearch | vision/contour_gui.py:576-583 | The results are forgotten and every mask is drawn plainly; the search text is kept |
| MaskViewer.SegmentationViewer.OnMouseMove | vision/contour_gui.py:459-493 | When the mask under the pointer changes it becomes the hover mask, drawn ahead of the results; with none under the pointer, the results alone are highlighted or, without results, every mask is drawn plainly |
| MaskViewer.SegmentationViewer.OnListboxSelect | vision/contour_gui.py:313-327 | Selecting a loaded mask's row makes it the hover mask and highlights it ahead of the results; otherwise nothing changes |
| BoxToSeg.ToSamBbox | vision/box_to_seg.py:28-36 | The far corner is the near corner moved by the size, so non-negative sizes give ordered corners |
| BoxToSeg.ShowBoxRect | vision/box_to_seg.py:38-41 | The drawn rectangle starts at the first corner and reaches the second |
| BoxToSeg.ShowBoxInvertsToSam | vision/box_to_seg.py:28-41 | Drawing a converted box gives back `(x, y, width, height)` |
| BoxToSeg.ToSamInvertsShowBox | vision/box_to_seg.py:28-41 | Converting a drawn rectangle gives back the corners |
| BoxToSeg.AnnotatedBoxCorners | vision/box_to_seg.py:99-102 | A box from two clicks is prompted as the minimum and maximum of the clicks' coordinates |
| BoxToSeg.MaskFileNameInjective | vision/box_to_seg.py:98 | Different ids give different mask file names |
| BoxToSeg.RemoveAllNoOccurrence | vision/box_to_seg.py:93 | A name without `.jpg` is left unchanged |
| BoxToSeg.RemoveAllIgnoresSuffix | vision/box_to_seg.py:93 | A name with `.jpg` appended gives the same directory as the bare name |
| BoxToSeg.PathJoin | vision/box_to_seg.py:93 | An absolute second part replaces the path; otherwise a head that is empty or ends in `/` is followed directly by the second part, and any other head is joined to it by one slash |
| BoxToSeg.MaskJobs | vision/box_to_seg.py:96-102 | Each saved box gives one job: its own mask path and its corner box |
| BoxToSeg.SavePathIsViewerPath | vision/box_to_seg.py:93-98 | For a plain name, the mask of box `i` is saved where the viewer reads mask `i` |
| BoxToSeg.JpgNameMissesViewerPath | vision/box_to_seg.py:93-98 | For every name `s + ".jpg"` with no other `.jpg` in it, and every id, the saved path and the viewer's path differ |
| BoxToSeg.MaskJobsDistinctPaths | vision/box_to_seg.py:96-98 | Boxes numbered 1..n by the annotator are saved to n different files |
| BoxToSeg.SavePathInjective | vision/box_to_seg.py:93-98 | Masks of one artwork with different ids are saved under different paths |
| BoxToSeg.PathJoinSuffixInjective | vision/box_to_seg.py:98 | Joining one directory with two relative names gives one path only for one name |
| BoxToSeg.MaskJobsFeedViewer | vision/box_to_seg.py:96-98 | The annotator's box `i` is saved as the viewer's mask `i + 1` |

## Left out

- The language model, the embeddings, the vector index and the retrieval chain
  are opaque. A reply names the prompt or chain that would be sent. The text
  they produce is not modelled, and neither are exceptions they raise at
  answer time.
- Template text and `str.format` are not modelled. A prompt is a template name,
  the template text found (or `""`) and the argument map. A `KeyError` from a
  placeholder missing in the arguments is not modelled.
- `random.choice` is a nondeterministic choice among the unviewed artworks. Its
  uniformity is not modelled.
- JSON files, directory listings and the prompt and document files are inputs:
  - the section data and the comparison data are values;
  - a listing is a sequence of file names with their contents;
  - a document loader's outcome is loaded documents or an exception.

  A prompt file that fails to open, or a prompt directory listing that raises,
  is not modelled.
- `api.py` (HTTP transport), `client.py` (network client) and
  `vision/contour_visualize.py` (plotting script) are not part of this model. The
  only piece of `api.py` kept is the choice of the previous work on line 78.
- GUI machinery is not modelled: Tk and Qt widgets, painting, status-bar and
  description-panel text, message boxes and file dialogs. Dialog answers are
  inputs.
- Image loading, resizing and contour extraction are not modelled. Each mask
  file's outcome is an input holding the scaled contour, and the display scale
  factors are not modelled.
- BoxAnnotator.ToImageCoordinates: the floating-point scale factor is an exact
  rational followed by a floor. This does not model rounding in the
  floating-point product.
- MaskViewer.PointInPolygon: coordinates are exact reals, not floats, so
  rounding in the intersection abscissa is not modelled.
- MaskViewer.Lower: only ASCII letters are lower-cased, not the full Unicode
  case mapping.
- MaskViewer.ParseInt: only ASCII digits are read, and underscores between
  digits are not accepted.
- `on_mouse_click` only sets status text and the description panel, so it is
  not modelled.
- `on_search_change` is not modelled. It is bound through a trace that is
  commented out in the source, and it would change the same state as
  `perform_search`.
- `perform_search` and `on_mouse_move` build the status text with
  `masks_data[mid]`. `perform_search` does this after a search;
  `on_mouse_move` does it when no mask is under the pointer and there are
  search results. When the results name an id that is not loaded, this raises
  `KeyError` after the masks have been redrawn, so no modelled state is lost.
  The status text is not modelled.
- SAM model loading and inference (`prompt_with_box`) are not modelled, and
  neither is writing the `.npy` files. The loop over the saved boxes is modelled
  as the jobs it would run.
