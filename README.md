# Sipnet sequence visualiser and TrackMate spot overlay

This project models two drawing components of the Fiji plugin collection and proves
what they draw.

**Sipnet's `Visualiser`** draws the result of a sequence search over a stack of
image slices. A sequence is a list of nodes. Each node is a list of assignments, and an
assignment links source candidates on one slice to target candidates on the next. Two
sentinel candidates stand for "emerges here" (the emerge node) and "ends here" (the death
node).

- `drawSequence` first groups the candidates into *treelines*. Every assignment merges
  the treelines of its targets with its sources into a new treeline. It then gives every
  treeline a colour, and a candidate the colour of the last treeline that holds it.
- It then draws every candidate in its colour, optionally labelled with its id in the
  complement colour.
- Finally it draws the connections: a yellow emerge circle, a red death circle, or two
  pairs of half-lines for an ordinary link.
- `drawMostLikelyCandidates` writes two images for every candidate that has likely
  candidates. The first is the candidate in white. The second is its likely candidates,
  largest first, each in a shade with its similarity as a label. File names are
  `s<slice>c<id>.tif` and `s<slice>c<id>-candidates.tif`.

**TrackMate's `SpotOverlay`** paints the spots of the current frame onto an image canvas
in three passes:

- the normal spots, each in its colour from the colour map;
- the selected spots, highlighted;
- the spot being edited, as a dashed oval.

A spot is a filled dot when its sphere does not reach the current plane. Otherwise it is a
ring, and also its name when names are shown. `paint` saves the graphics settings it finds
and restores them when it completes. Before it draws anything it throws on a `null` or
short calibration array, and on a `null` colour map when there is a normal spot to draw.
It can also throw on a `null` canvas, which the model leaves out.

Modules:

- `Wrappers` defines `Option`.
- `Seqs` holds sequence helpers: filter, concat-map, and `Vector.remove(Object)` as
  "remove the first equal element".
- `Decimal` models Java's `String.valueOf(int)` and proves its round trip.
- `Treelines` models the grouping and the colour map: specification functions, the
  lemmas about them, and the methods that run the source's loops.
- `SequencePlan` models `drawSequence`, with each image modelled as the list of drawing
  calls made on it.
- `LikelyCandidates` models `drawMostLikelyCandidates`: the stable size sort, the two
  images, and the file names.
- `TrackMateOverlay` models `SpotOverlay` as a class with the overlay's fields. It sits
  beside a small `Graphics` class that records the settings and the calls of a
  `Graphics2D`, and a function `PaintOutcome` that specifies `paint`.

Sources:

- `Visualiser.java` is `src-plugins/Sipnet_/sipnet/Visualiser.java`.
- `SpotOverlay.java` is
  `src-plugins/TrackMate_/fiji/plugin/trackmate/visualization/SpotOverlay.java`.

## Model

| member | source | states |
|---|---|---|
| Seqs.RemoveFirst | src-plugins/Sipnet_/sipnet/Visualiser.java:77-78 | `Vector.remove(Object)` takes away exactly one occurrence of an element present, and leaves a list without it unchanged |
| Seqs.RemoveEachCount | src-plugins/Sipnet_/sipnet/Visualiser.java:77-78 | removing a list of treelines one by one takes away, as a multiset, exactly those treelines |
| Decimal.IntToString | src-plugins/Sipnet_/sipnet/Visualiser.java:118-128 | the text of `"" + getId()`: a minus sign for a negative id, then its decimal digits without leading zeros |
| Decimal.IntRoundTrip | src-plugins/Sipnet_/sipnet/Visualiser.java:118 | the id label `"" + getId()` can be read back to the id, so it loses nothing |
| Decimal.IntToStringInjective | src-plugins/Sipnet_/sipnet/Visualiser.java:204 | distinct ids are written as distinct strings |
| Treelines.LookUpTarget | src-plugins/Sipnet_/sipnet/Visualiser.java:47-63 | one target's lookup: unless it is the death node, the treelines holding it are recorded in list order; when there are none, or it is the death node, a fresh `{target}` is appended to the list and recorded |
| Treelines.LookUpTargets | src-plugins/Sipnet_/sipnet/Visualiser.java:45-64 | the lookups of an assignment's targets, one after the other in target order, each on the list the previous one left |
| Treelines.Step | src-plugins/Sipnet_/sipnet/Visualiser.java:44-81 | one assignment: look up its targets, remove each recorded treeline by content, and append the union of the recorded treelines and the non-emerge sources |
| Treelines.Grouping | src-plugins/Sipnet_/sipnet/Visualiser.java:32-83 | the treeline list after every assignment of every node, in iteration order, starting from an empty list |
| Treelines.ColourMap | src-plugins/Sipnet_/sipnet/Visualiser.java:85-94 | each candidate of a treeline mapped to that treeline's palette colour, later treelines overwriting earlier ones; candidates in no treeline are absent |
| Treelines.UnionAllMember | src-plugins/Sipnet_/sipnet/Visualiser.java:67-69 | the merged set holds a candidate iff one of the target treelines holds it |
| Treelines.LookUpShape | src-plugins/Sipnet_/sipnet/Visualiser.java:45-64 | the lookup only appends singletons of targets to the treeline list, and every recorded treeline is in the list |
| Treelines.LookUpFound | src-plugins/Sipnet_/sipnet/Visualiser.java:48-63 | only treelines holding a non-death target are recorded, plus one `{death}` singleton per death target |
| Treelines.LookUpCounts | src-plugins/Sipnet_/sipnet/Visualiser.java:45-64 | each treeline holding a searched target is recorded at least as often as it occurs; other treelines keep their count, plus the death singletons |
| Treelines.FreshSingleton | src-plugins/Sipnet_/sipnet/Visualiser.java:57-63 | a death target, or a target no treeline holds, gets a fresh singleton treeline that is recorded |
| Treelines.LookUpUnion | src-plugins/Sipnet_/sipnet/Visualiser.java:45-64 | the recorded treelines together hold exactly the targets and the candidates of old treelines holding a non-death target |
| Treelines.NewTreeline | src-plugins/Sipnet_/sipnet/Visualiser.java:66-74 | the new treeline holds c iff c is in an old treeline holding a non-death target, or c is a target, or c is a source other than the emerge node |
| Treelines.LastTreelineHoldsAssignment | src-plugins/Sipnet_/sipnet/Visualiser.java:66-81 | after an assignment, the last treeline holds all its targets and all its non-emerge sources |
| Treelines.FreshTargetMerged | src-plugins/Sipnet_/sipnet/Visualiser.java:57-69 | a fresh target singleton is recorded and merged into the new treeline |
| Treelines.RemainingMultiset | src-plugins/Sipnet_/sipnet/Visualiser.java:76-78 | after removal, the list holds, as a multiset, exactly the old treelines that hold no searched target |
| Treelines.AppendedSetAside | src-plugins/Sipnet_/sipnet/Visualiser.java:59-61 | the lookup keeps the old list as a prefix; each appended singleton holds a searched target or is `{death}`, and without a death target each holds a searched target |
| Treelines.RemainingOrder | src-plugins/Sipnet_/sipnet/Visualiser.java:76-78 | removal keeps, in list order, the untouched treelines other than `{death}` |
| Treelines.RemainingExact | src-plugins/Sipnet_/sipnet/Visualiser.java:76-78 | without a death target, removal keeps exactly the untouched treelines, in list order |
| Treelines.RemainingTreelines | src-plugins/Sipnet_/sipnet/Visualiser.java:44-81 | after one assignment the list is the untouched treelines (as a multiset, and in order up to death singletons) followed by the new treeline |
| Treelines.StepCovers | src-plugins/Sipnet_/sipnet/Visualiser.java:44-81 | one assignment loses no candidate, and adds exactly its targets and its non-emerge sources |
| Treelines.ReplayCovers | src-plugins/Sipnet_/sipnet/Visualiser.java:39-83 | after a run of assignments, the treelines hold exactly the candidates held before plus those the run involves |
| Treelines.AssignmentsInvolved | src-plugins/Sipnet_/sipnet/Visualiser.java:39-40 | walking the nodes and then their assignments involves exactly the targets and non-emerge sources of the sequence |
| Treelines.GroupingCovers | src-plugins/Sipnet_/sipnet/Visualiser.java:32-83 | the final treelines hold c iff c is a target or a non-emerge source of some assignment of the sequence |
| Treelines.ColourOfLastTreeline | src-plugins/Sipnet_/sipnet/Visualiser.java:85-94 | a candidate has a colour iff some treeline holds it, and the colour is that of the last treeline holding it |
| Treelines.TreelinesHolding | src-plugins/Sipnet_/sipnet/Visualiser.java:50-55 | the loop collects, in order, the treelines containing the target, and `found` says whether there was one |
| Treelines.FindTargetTreelines | src-plugins/Sipnet_/sipnet/Visualiser.java:45-64 | the target loop produces the list and the recorded treelines of the lookup specification |
| Treelines.MergeTreelines | src-plugins/Sipnet_/sipnet/Visualiser.java:66-74 | the merge and source loops build the union of the recorded treelines and the non-emerge sources |
| Treelines.RemoveTreelines | src-plugins/Sipnet_/sipnet/Visualiser.java:76-78 | the removal loop removes each recorded treeline's first equal occurrence |
| Treelines.ProcessAssignment | src-plugins/Sipnet_/sipnet/Visualiser.java:44-81 | one assignment's processing gives the treeline list of the step specification |
| Treelines.ProcessNode | src-plugins/Sipnet_/sipnet/Visualiser.java:40-82 | the assignment loop of one node continues the replay by that node's assignments, in order |
| Treelines.GroupTreelines | src-plugins/Sipnet_/sipnet/Visualiser.java:32-83 | the nested node and assignment loops give the grouping of the whole sequence |
| Treelines.ColourTreeline | src-plugins/Sipnet_/sipnet/Visualiser.java:92-93 | every member of one treeline is mapped to that treeline's colour, other entries are kept |
| Treelines.AssignColours | src-plugins/Sipnet_/sipnet/Visualiser.java:85-94 | the colour loop builds the colour map in which later treelines overwrite earlier ones |
| SequencePlan.Complement | src-plugins/Sipnet_/sipnet/Visualiser.java:293-297 | the label colour is a valid RGB colour iff the candidate's colour is |
| SequencePlan.Half | src-plugins/Sipnet_/sipnet/Visualiser.java:257 | Java's `/2` truncates toward zero: the remainder is at most one in size, with the sign of the operand |
| SequencePlan.Midpoint | src-plugins/Sipnet_/sipnet/Visualiser.java:257-260 | the point `((x1 + x2)/2, (y1 + y2)/2)` of both connection helpers, each coordinate truncated toward zero |
| SequencePlan.MidpointBetween | src-plugins/Sipnet_/sipnet/Visualiser.java:257-260 | the midpoint of a connection lies between its ends on both axes and is symmetric in them |
| SequencePlan.DrawCandidate | src-plugins/Sipnet_/sipnet/Visualiser.java:284-303 | `drawCandidate`: the pixels in the given colour, then, when there is an annotation, the annotation at the integer centre in the complement colour |
| SequencePlan.ColourOf | src-plugins/Sipnet_/sipnet/Visualiser.java:117-127 | `colors.get(c)`, black standing for a missing entry (see Left out) |
| SequencePlan.Label | src-plugins/Sipnet_/sipnet/Visualiser.java:118-127 | `drawCandidateId ? "" + c.getId() : null`: the id text when ids are asked for, none otherwise |
| SequencePlan.CandidateLabel | src-plugins/Sipnet_/sipnet/Visualiser.java:284-303 | the only text among a candidate's marks is its id, at its centre, in the complement of its colour, and its pixels are among the marks too |
| SequencePlan.Plan | src-plugins/Sipnet_/sipnet/Visualiser.java:96-133 | what the first k nodes draw, node i on previous slice n - i, each of its assignments in turn |
| SequencePlan.PlacedIn | src-plugins/Sipnet_/sipnet/Visualiser.java:108-131 | a candidate is placed on a slice by an assignment as a non-emerge source on the node's previous slice, or, on the first node visited (`slice == n`) only, as a non-death target on the next slice |
| SequencePlan.AssignmentCandidatesSound | src-plugins/Sipnet_/sipnet/Visualiser.java:108-131 | every call drawn for an assignment draws a non-emerge source on its slice, or, on the first node visited (`slice == n`), a non-death target on the next slice |
| SequencePlan.AssignmentCandidatesComplete | src-plugins/Sipnet_/sipnet/Visualiser.java:108-131 | every such candidate is drawn by the assignment |
| SequencePlan.CandidatePlanSound | src-plugins/Sipnet_/sipnet/Visualiser.java:96-133 | every candidate call comes from a node whose previous slice is n minus its index |
| SequencePlan.CandidatePlanComplete | src-plugins/Sipnet_/sipnet/Visualiser.java:96-133 | every candidate the slice rule places is drawn |
| SequencePlan.CandidatePlanMember | src-plugins/Sipnet_/sipnet/Visualiser.java:96-133 | a call is in the candidate drawing iff it draws a placed candidate on its slice |
| SequencePlan.PixelsDrawn | src-plugins/Sipnet_/sipnet/Visualiser.java:108-131 | a candidate's pixels are drawn on slice sl iff the slice rule places it there, and in its mapped colour |
| SequencePlan.LabelsDrawn | src-plugins/Sipnet_/sipnet/Visualiser.java:111-130 | labels appear iff ids are requested: the id text, at the centre, in the complement colour of a placed candidate |
| SequencePlan.LabelOnPixels | src-plugins/Sipnet_/sipnet/Visualiser.java:113-130 | every label lies on its candidate's pixels, drawn on the same slice in the colour whose complement the label has; so labels of one colour on a slice belong to candidates of one colour |
| SequencePlan.EmergeMarker | src-plugins/Sipnet_/sipnet/Visualiser.java:272-276 | `drawEmerge`: a yellow 5 by 5 oval whose corner is 2 left of and 2 above the point |
| SequencePlan.DeathMarker | src-plugins/Sipnet_/sipnet/Visualiser.java:278-282 | `drawDeath`: a red 6 by 6 oval whose corner is 3 left of and 3 above the point |
| SequencePlan.PairMarks | src-plugins/Sipnet_/sipnet/Visualiser.java:152-171 | one source-target pair, the cases tried in order: an emerge circle at the target on the next slice, else a death circle at the source on the node's slice, else the half-lines to the midpoint on both slices |
| SequencePlan.AssignmentConnectionsSound | src-plugins/Sipnet_/sipnet/Visualiser.java:149-174 | every connection call of an assignment belongs to one of its source-target pairs |
| SequencePlan.AssignmentConnectionsComplete | src-plugins/Sipnet_/sipnet/Visualiser.java:149-174 | every pair's calls are drawn |
| SequencePlan.ConnectionPlanSound | src-plugins/Sipnet_/sipnet/Visualiser.java:135-177 | every connection call belongs to a pair linked by a node on its slice |
| SequencePlan.ConnectionPlanComplete | src-plugins/Sipnet_/sipnet/Visualiser.java:135-177 | every linked pair's calls are drawn |
| SequencePlan.ConnectionPlanMember | src-plugins/Sipnet_/sipnet/Visualiser.java:135-177 | a call is in the connection drawing iff it is one of the calls of a linked pair |
| SequencePlan.PairEmerge | src-plugins/Sipnet_/sipnet/Visualiser.java:152-154 | a pair draws an emerge circle iff its source is the emerge node; the circle is at the target's centre, on the next slice |
| SequencePlan.PairDeath | src-plugins/Sipnet_/sipnet/Visualiser.java:156-158 | a pair draws a death circle iff its source is not the emerge node and its target is the death node; the circle is at the source's centre, on the node's slice |
| SequencePlan.EmergeMarkers | src-plugins/Sipnet_/sipnet/Visualiser.java:147-154 | an emerge circle is drawn at p on slice sl iff some target linked from the emerge node on slice sl-1 has centre p |
| SequencePlan.DeathMarkers | src-plugins/Sipnet_/sipnet/Visualiser.java:147-158 | a death circle is drawn at p on slice sl iff a non-emerge source linked to the death node on sl has centre p |
| SequencePlan.ConnectionLines | src-plugins/Sipnet_/sipnet/Visualiser.java:160-171 | a line is drawn iff it is one of the four half-lines (green/grey on the previous slice, grey/blue on the next) of an ordinary linked pair |
| SequencePlan.PairSlices | src-plugins/Sipnet_/sipnet/Visualiser.java:141-171 | a pair draws only on its node's slice and the next one |
| SequencePlan.CandidateSlices | src-plugins/Sipnet_/sipnet/Visualiser.java:99-132 | candidates are drawn only on slices 1 to n+1 of the stack |
| SequencePlan.ConnectionSlices | src-plugins/Sipnet_/sipnet/Visualiser.java:138-176 | connections are drawn only on slices 1 to n+1 of the stack |
| SequencePlan.DrawnCandidatesColoured | src-plugins/Sipnet_/sipnet/Visualiser.java:117-128 | every drawn candidate has a colour-map entry, so `colors.get` never gives `null`, and it is drawn in the colour of the last treeline holding it |
| SequencePlan.DrawCandidateList | src-plugins/Sipnet_/sipnet/Visualiser.java:113-130 | the loop over targets or sources draws every candidate but the skipped sentinel, in order |
| SequencePlan.DrawAssignmentCandidates | src-plugins/Sipnet_/sipnet/Visualiser.java:111-130 | one assignment draws, on the first node visited (`slice == n`) only, its targets but the death node on the next slice, then its sources but the emerge node |
| SequencePlan.DrawNodeCandidates | src-plugins/Sipnet_/sipnet/Visualiser.java:108-131 | the assignment loop draws each assignment's candidates in order |
| SequencePlan.DrawCandidates | src-plugins/Sipnet_/sipnet/Visualiser.java:96-133 | the candidate loop, counting the slice down from n, draws the candidate specification |
| SequencePlan.DrawPairs | src-plugins/Sipnet_/sipnet/Visualiser.java:150-172 | the target loop draws the pair rule for one source and every target |
| SequencePlan.DrawAssignmentConnections | src-plugins/Sipnet_/sipnet/Visualiser.java:149-174 | the source loop draws every pair of the assignment |
| SequencePlan.DrawNodeConnections | src-plugins/Sipnet_/sipnet/Visualiser.java:147-175 | the assignment loop draws each assignment's connections in order |
| SequencePlan.DrawConnections | src-plugins/Sipnet_/sipnet/Visualiser.java:135-177 | the connection loop, counting the slice down from n, draws the connection specification |
| SequencePlan.DrawSequence | src-plugins/Sipnet_/sipnet/Visualiser.java:23-180 | `drawSequence` computes the grouping's colour map, then draws the candidate plan followed by the connection plan |
| LikelyCandidates.Insert | src-plugins/Sipnet_/sipnet/Visualiser.java:222-231 | puts an element after every element at least as large, before the first smaller one |
| LikelyCandidates.SortBySize | src-plugins/Sipnet_/sipnet/Visualiser.java:219-231 | `Collections.sort` with the size comparator: each element inserted in list order |
| LikelyCandidates.CandidateFile | src-plugins/Sipnet_/sipnet/Visualiser.java:204 | the name `<dir>/s<slice>c<id>.tif` of the candidate image |
| LikelyCandidates.SimilarFile | src-plugins/Sipnet_/sipnet/Visualiser.java:247 | the name `<dir>/s<slice>c<id>-candidates.tif` of the image of likely candidates |
| LikelyCandidates.SimilarImage | src-plugins/Sipnet_/sipnet/Visualiser.java:219-241 | the image of likely candidates: each, largest first, in its shade with its similarity as annotation |
| LikelyCandidates.ExportOf | src-plugins/Sipnet_/sipnet/Visualiser.java:199-247 | one candidate's export: the candidate file and the candidate in white without annotation, the similar file and the similar image |
| LikelyCandidates.SliceExports | src-plugins/Sipnet_/sipnet/Visualiser.java:192-248 | the exports of one slice list: its candidates that have likely candidates, in list order |
| LikelyCandidates.Exports | src-plugins/Sipnet_/sipnet/Visualiser.java:187-251 | the exports of all slice lists, list m numbered m+1 |
| LikelyCandidates.InsertSorted | src-plugins/Sipnet_/sipnet/Visualiser.java:222-231 | inserting after every element at least as large keeps a list sorted largest first |
| LikelyCandidates.SortBySizeCorrect | src-plugins/Sipnet_/sipnet/Visualiser.java:219-231 | the size sort is sorted largest first, a permutation, and stable: candidates of equal size keep their order |
| LikelyCandidates.CandidateImageBare | src-plugins/Sipnet_/sipnet/Visualiser.java:199-204 | the candidate image is exactly the candidate's pixels in white, with no label |
| LikelyCandidates.SimilarImageOrder | src-plugins/Sipnet_/sipnet/Visualiser.java:219-241 | the likely candidates are drawn exactly in the size-sorted order |
| LikelyCandidates.SimilarImageMember | src-plugins/Sipnet_/sipnet/Visualiser.java:233-241 | a call in the similar image is a likely candidate's pixels in its shade, or its similarity text in the complement shade at its centre |
| LikelyCandidates.SliceExportsMember | src-plugins/Sipnet_/sipnet/Visualiser.java:192-248 | one slice list exports exactly its candidates that have likely candidates |
| LikelyCandidates.ExportsSound | src-plugins/Sipnet_/sipnet/Visualiser.java:187-251 | every export is of a candidate with likely candidates in list m, numbered m+1 |
| LikelyCandidates.ExportsComplete | src-plugins/Sipnet_/sipnet/Visualiser.java:187-251 | every candidate with likely candidates is exported, numbered by its list |
| LikelyCandidates.ExportsMember | src-plugins/Sipnet_/sipnet/Visualiser.java:187-251 | exports are exactly the candidates with likely candidates, the counter `s` counting every list including skipped ones |
| LikelyCandidates.FileNamesDistinct | src-plugins/Sipnet_/sipnet/Visualiser.java:204-247 | for non-negative slice numbers both name patterns determine slice and id, and no candidate file name equals a similar file name |
| LikelyCandidates.ExportFilesDistinct | src-plugins/Sipnet_/sipnet/Visualiser.java:187-251 | no export's candidate image overwrites any export's image of likely candidates; two candidate images share a name only for the same slice list and the same id, and then their similar images share theirs |
| LikelyCandidates.DrawSimilars | src-plugins/Sipnet_/sipnet/Visualiser.java:233-241 | the loop draws each sorted likely candidate with its shade and similarity |
| LikelyCandidates.ExportCandidate | src-plugins/Sipnet_/sipnet/Visualiser.java:199-247 | one candidate's export: both file names from the slice number and id, the candidate in white, its likely candidates largest first |
| LikelyCandidates.ExportSlice | src-plugins/Sipnet_/sipnet/Visualiser.java:192-248 | the candidate loop exports the slice specification and counts the exports in `i` |
| LikelyCandidates.DrawMostLikelyCandidates | src-plugins/Sipnet_/sipnet/Visualiser.java:182-252 | the nested loops produce exactly the export specification |
| TrackMateOverlay.SpotMarks | src-plugins/TrackMate_/fiji/plugin/trackmate/visualization/SpotOverlay.java:169-195 | `drawSpot`: a dot when dz² >= (radius·ratio)², else a ring followed by the name when names are shown, all with the settings in force |
| TrackMateOverlay.Kept | src-plugins/TrackMate_/fiji/plugin/trackmate/visualization/SpotOverlay.java:117-118 | the normal pass skips the spot being edited and the spots of the selection |
| TrackMateOverlay.ColourFor | src-plugins/TrackMate_/fiji/plugin/trackmate/visualization/SpotOverlay.java:120-122 | the spot's colour-map entry, or the default colour when it has none |
| TrackMateOverlay.NormalMarks | src-plugins/TrackMate_/fiji/plugin/trackmate/visualization/SpotOverlay.java:113-127 | the normal pass: the kept spots of the list, in order, each in its colour |
| TrackMateOverlay.SelectionMarks | src-plugins/TrackMate_/fiji/plugin/trackmate/visualization/SpotOverlay.java:129-140 | the selection pass: the selected spots the collection puts in the frame, in selection order, with the highlight pen |
| TrackMateOverlay.ZSlice | src-plugins/TrackMate_/fiji/plugin/trackmate/visualization/SpotOverlay.java:107 | the height of the current plane, `(slice - 1) * calibration[2]` |
| TrackMateOverlay.PaintOutcome | src-plugins/TrackMate_/fiji/plugin/trackmate/visualization/SpotOverlay.java:89-167 | `paint`: nothing when hidden; else composite and font set, then a null dereference on a `null` calibration, an index error on a short one, a null dereference on a `null` map with a kept spot, or the three passes and the settings restored |
| TrackMateOverlay.SpotShape | src-plugins/TrackMate_/fiji/plugin/trackmate/visualization/SpotOverlay.java:173-194 | a dot iff dz² >= (radius·ratio)²; a ring otherwise; the name only with a ring and iff names are shown |
| TrackMateOverlay.HiddenDrawsNothing | src-plugins/TrackMate_/fiji/plugin/trackmate/visualization/SpotOverlay.java:91-92 | hidden spots or no collection: nothing drawn, settings untouched |
| TrackMateOverlay.PaintFailure | src-plugins/TrackMate_/fiji/plugin/trackmate/visualization/SpotOverlay.java:102-124 | `paint` throws an index error iff the calibration has fewer than 3 entries, and a null-dereference error iff the calibration is `null` or the colour map is `null` with a normal spot to draw; it throws before drawing anything |
| TrackMateOverlay.PaintRestores | src-plugins/TrackMate_/fiji/plugin/trackmate/visualization/SpotOverlay.java:94-166 | a completed paint leaves the graphics settings as it found them; every call uses the overlay's composite, the label font and the caller's transform |
| TrackMateOverlay.PaintPens | src-plugins/TrackMate_/fiji/plugin/trackmate/visualization/SpotOverlay.java:110-159 | the stroke of each call tells its pass: normal, selection or editing |
| TrackMateOverlay.NormalSpot | src-plugins/TrackMate_/fiji/plugin/trackmate/visualization/SpotOverlay.java:115-124 | every normal-pass call is for a kept spot, in its colour |
| TrackMateOverlay.NormalDrawn | src-plugins/TrackMate_/fiji/plugin/trackmate/visualization/SpotOverlay.java:115-124 | every kept spot is drawn by the normal pass |
| TrackMateOverlay.SelectedSpot | src-plugins/TrackMate_/fiji/plugin/trackmate/visualization/SpotOverlay.java:134-139 | every selection-pass call is for a selected spot of the current frame |
| TrackMateOverlay.SelectedDrawn | src-plugins/TrackMate_/fiji/plugin/trackmate/visualization/SpotOverlay.java:134-139 | every selected spot of the current frame is drawn by the selection pass |
| TrackMateOverlay.PaintNormalPass | src-plugins/TrackMate_/fiji/plugin/trackmate/visualization/SpotOverlay.java:110-127 | a spot gets a normal-stroke call iff it is in the frame's list and is neither edited nor selected; the colour is its map entry, else the default colour |
| TrackMateOverlay.PaintSelectionPass | src-plugins/TrackMate_/fiji/plugin/trackmate/visualization/SpotOverlay.java:129-140 | a spot gets a selection-stroke call iff it is selected and the collection puts it in the current frame |
| TrackMateOverlay.PaintSelectionHighlighted | src-plugins/TrackMate_/fiji/plugin/trackmate/visualization/SpotOverlay.java:129-140 | every selection-stroke call is in the highlight colour |
| TrackMateOverlay.PaintEditingPass | src-plugins/TrackMate_/fiji/plugin/trackmate/visualization/SpotOverlay.java:142-159 | the edited spot's dashed highlighted oval is the last call, whatever the spot's frame, and it is the only call with the editing stroke |
| TrackMateOverlay.SpotOverlay.constructor | src-plugins/TrackMate_/fiji/plugin/trackmate/visualization/SpotOverlay.java:27-53 | a new overlay keeps the calibration, `null` or not; spots are visible, the ratio is 1, the composite is SRC_OVER, names are hidden, everything else is null |
| TrackMateOverlay.SpotOverlay.SetSpotNameVisible | src-plugins/TrackMate_/fiji/plugin/trackmate/visualization/SpotOverlay.java:60-62 | sets only that field |
| TrackMateOverlay.SpotOverlay.SetSpotVisible | src-plugins/TrackMate_/fiji/plugin/trackmate/visualization/SpotOverlay.java:64-66 | sets only that field |
| TrackMateOverlay.SpotOverlay.SetEditedSpot | src-plugins/TrackMate_/fiji/plugin/trackmate/visualization/SpotOverlay.java:68-70 | sets only that field |
| TrackMateOverlay.SpotOverlay.SetSpotSelection | src-plugins/TrackMate_/fiji/plugin/trackmate/visualization/SpotOverlay.java:72-74 | sets only that field |
| TrackMateOverlay.SpotOverlay.SetTarget | src-plugins/TrackMate_/fiji/plugin/trackmate/visualization/SpotOverlay.java:76-78 | sets only that field |
| TrackMateOverlay.SpotOverlay.SetTargetColor | src-plugins/TrackMate_/fiji/plugin/trackmate/visualization/SpotOverlay.java:80-82 | sets only that field |
| TrackMateOverlay.SpotOverlay.SetRadiusRatio | src-plugins/TrackMate_/fiji/plugin/trackmate/visualization/SpotOverlay.java:84-86 | sets only that field |
| TrackMateOverlay.SpotOverlay.SetComposite | src-plugins/TrackMate_/fiji/plugin/trackmate/visualization/SpotOverlay.java:197-200 | sets only that field |
| TrackMateOverlay.SpotOverlay.DrawSpot | src-plugins/TrackMate_/fiji/plugin/trackmate/visualization/SpotOverlay.java:169-195 | appends the spot's dot, or its ring and maybe its name, with the current settings, and changes no setting |
| TrackMateOverlay.SpotOverlay.DrawNormalSpot | src-plugins/TrackMate_/fiji/plugin/trackmate/visualization/SpotOverlay.java:120-124 | sets the spot's colour (map entry or default) and draws it |
| TrackMateOverlay.SpotOverlay.NormalPass | src-plugins/TrackMate_/fiji/plugin/trackmate/visualization/SpotOverlay.java:113-127 | draws the kept spots in their colours, or throws a null-dereference error, having drawn nothing, iff the map is null and a kept spot exists |
| TrackMateOverlay.SpotOverlay.SelectionPass | src-plugins/TrackMate_/fiji/plugin/trackmate/visualization/SpotOverlay.java:134-139 | draws the selected spots of the frame, in selection order |
| TrackMateOverlay.SpotOverlay.Passes | src-plugins/TrackMate_/fiji/plugin/trackmate/visualization/SpotOverlay.java:110-159 | the three passes draw the pass specification, or fail only in the normal pass; transform, composite and font stay |
| TrackMateOverlay.SpotOverlay.Paint | src-plugins/TrackMate_/fiji/plugin/trackmate/visualization/SpotOverlay.java:88-167 | `paint` draws and leaves the settings as `PaintOutcome` says, changes no overlay field and records the label font's metrics once it has set the font |

## Left out

- Image I/O is not modelled. This covers duplicating and showing the block image,
  `IJ.run`, `updateAndDraw`, `IJ.log` of a skipped candidate, and `IJ.save`. Each image is
  modelled as the list of drawing calls made on it, and a saved file as its name.
- Treeline colours come from `Math.random()`. The model takes them as a parameter
  `palette`: the colour of the i-th treeline of the final list.
- Similarity colouring is not modelled. `drawMostLikelyCandidates` computes the minimum and
  maximum similarity and the red/green shade in `double` arithmetic. The model takes the
  shade and the similarity text of each pair as parameters. What the source draws when
  all similarities are equal (a 0/0 in `double` arithmetic) is therefore not modelled.
- Candidate geometry is reduced to values. A candidate's pixel list is represented by the
  candidate itself, and its centre by an integer point already cast with `(int)`.
  `getStack().getProcessor(slice)` is a slice number; its range check (slices 1 to the
  stack size) is not modelled, and `CandidateSlices` and `ConnectionSlices` state the
  range used instead.
- `drawConfidence` and the assignment costs are unused by the source and have no
  counterpart.
- Integer overflow is not modelled. Java's 32-bit `int` arithmetic is modelled with
  unbounded integers: the midpoint sum, the ids and the counters `i` and `s`.
- SequencePlan.ColourOf: the black fallback for a missing colour-map entry does not
  exist in the source, where the entry would be `null`. `DrawnCandidatesColoured` proves
  it is never used.
- Treelines.RemainingOrder: `Vector.remove(Object)` compares treelines by content. When a
  death target's singleton `{death}` is removed, an older equal singleton can go instead
  of the new one. The model reproduces this, so the order of death singletons is only
  stated as a multiset.
- TrackMateOverlay.SpotOverlay.Paint: pixel geometry is left out. This covers the
  canvas-to-screen arithmetic (`xcorner`, `ycorner`, magnification, the division by the
  calibration, `Math.round`, `Math.sqrt`), the stroke widths and dash pattern, and the
  font-metric indents of names. A drawing call records only its shape, its spot and its
  settings.
- TrackMateOverlay.SpotShape: the dot test compares `float` squares in the source. The
  model uses exact reals, so rounding at the boundary is not modelled.
- The image `imp` is not modelled. Its current frame and slice are parameters of
  `Paint`, and `canvas.getMagnification()` is not read, so a `null` canvas is not modelled
  either.
- TrackMateOverlay.PaintFailure: the iff covers the `null` and the short calibration and
  the `null` colour map. It does not cover the `NullPointerException` that a `null` canvas
  (`imp.getCanvas()` of an image not shown) raises at source lines 131 and 146, because the
  canvas is not modelled.
- TrackMateOverlay.Kept: spots are values compared by equality. The source compares the
  edited spot by reference (`==`) and the selection with `contains`.
- The colour constants `SpotDisplayer.DEFAULT_COLOR` and `HIGHLIGHT_COLOR` are kept
  abstract; `SpotDisplayer.java` is not part of this model.
- `SpotCollection.get` and `getFrame` are modelled as two maps; `SpotCollection.java` is
  not part of this model.
- The other repository files next to these two classes are not part of this model.
