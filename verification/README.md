# Entropy core logic in Dafny

This project models the parts of the Entropy openFrameworks code base that hold sequential logic rather than rendering. It then proves properties of that model.

- **Wireframe box** (`entropy::geom::Box`), module `Geom`. It covers the mesh topology that `addEdge` and `rebuildMesh` build, and the dirty-flag state machine of `update`.
  - The mesh is a set of parallel buffers (module `Meshes`).
  - Each vertex is described symbolically: the bar, the face and the grid corner it belongs to. It carries no float coordinates.
  - The faces bit mask passed to `addEdge` is a set of faces.
- **Photon ring buffer** (`nm::Photons`), module `Photons`. It covers `init`, `onPhoton` (pre-increment of the cursor modulo the slot count) and `update`.
  - `update` moves only the active slots. Pair production resets the slot at the cursor to the FLT_MAX sentinel.
- **Parameter/timeline mapping** (`entropy::util::Mapping`), module `Mapping`.
  - `setup` derives the names from the group hierarchy.
  - `addTrack` and `removeTrack` maintain the track registry, which is keyed by `<group>_<parameter>`.
  - `update` copies the track's reading into the parameter.
- **Media base** (`entropy::media::Base`), module `Media`. It covers:
  - the type name and the total fade;
  - the `shouldPlay` decision, including its recursion through linked media;
  - the listeners that re-arm free play;
  - registration of the per-page `Media_`, `Fade_` and `LFO_` tracks;
  - `addDefaultSwitch`;
  - the 8-vertex border strip.

  The parameter listeners act only between `init_` and `clear_`, which attach and detach them; a `listening` flag on the media records which is the case.
- **Shared linked media**, module `Linking`. A pool of media stands for the objects that `linkedMedia` shares, and a link is a position in the pool. Here `shouldPlay` is followed through shared links, including links that form a cycle, and the corrected, cycle-safe decision is compared with the recursion as written.

The ofxTimeline object that mappings and media register tracks on is modelled abstractly in module `Timeline`: a list of named pages, each holding named tracks. Decimal formatting (`ofToString` on integers) is modelled in module `Strings`.

Inputs from outside the model are passed as parameters:
- the random draws (velocities in `init`, the pair-production draw in `update`);
- the elapsed time;
- whether the timeline is playing;
- the subclass hook `initFreePlay`;
- whether the timeline accepted a new switch.

One oddity in `Photons::init` is modelled as written. It calls `glm::normalize(v)` and discards the result, so each velocity is the raw draw scaled by 300.

## Model

| member | source | states |
|---|---|---|
| Geom.Normal | Projects/EntropyLib/src/entropy/geom/Box.cpp:335 | each face normal is a unit vector |
| Geom.FaceVertices | Projects/EntropyLib/src/entropy/geom/Box.cpp:337-352 | a face has four vertices, column index varying fastest, as the nested loops add them |
| Geom.FaceTexcoords | Projects/EntropyLib/src/entropy/geom/Box.cpp:341-342 | the four texture coordinates of a face are exactly the unit-square corners (0,0), (1,0), (0,1), (1,1) |
| Geom.GridIndices | Projects/EntropyLib/src/entropy/geom/Box.cpp:354-366 | a grid face gets six indices per cell, each inside the face's own vertex block |
| Geom.AddFace | Projects/EntropyLib/src/entropy/geom/Box.cpp:332-368 | one face appends 4 vertices, normals and texture coordinates, and the indices off+{0,1,2,1,3,2} at the vertex count before it; colours and mode are kept |
| Geom.EmittedCount | Projects/EntropyLib/src/entropy/geom/Box.cpp:332-566 | the faces addEdge emits are exactly the selected ones, each once |
| Geom.AddEdge | Projects/EntropyLib/src/entropy/geom/Box.cpp:317-567 | addEdge equals appending the selected faces in the order Front, Right, Left, Back, Bottom, Top |
| Geom.AddEdgeFaceBlocks | Projects/EntropyLib/src/entropy/geom/Box.cpp:332-566 | with any face set, block i of the output holds the i-th emitted face; its indices are the quad pattern at offset +4i; totals are 4 vertices and 6 indices per face |
| Geom.AddEdgeSingleFace | Projects/EntropyLib/src/entropy/geom/Box.cpp:332-368 | a single face flag appends exactly 4 vertices, 4 texture coordinates, 4 normals and the 6 indices off+{0,1,2,1,3,2} |
| Geom.AddEdgeIndexBounds | Projects/EntropyLib/src/entropy/geom/Box.cpp:330-366 | existing vertices and indices are kept; every appended index lies in [vertex count before, vertex count after) |
| Geom.AddEdgeTexcoordsUnit | Projects/EntropyLib/src/entropy/geom/Box.cpp:341-342 | addEdge keeps every texture coordinate component at exactly 0 or 1 |
| Geom.AddEdgeWellFormed | Projects/EntropyLib/src/entropy/geom/Box.cpp:317-567 | addEdge preserves the mesh invariant: one normal and texture coordinate per vertex, indices in range, unit texture coordinates |
| Geom.AddRun | Projects/EntropyLib/src/entropy/geom/Box.cpp:172-179 | a run of n bars adds 4n vertices and 6n indices and keeps the mesh invariant |
| Geom.AddSides | Projects/EntropyLib/src/entropy/geom/Box.cpp:169-311 | the horizontal and vertical runs of each side add 8n vertices and 12n indices per side |
| Geom.NewBox | Projects/EntropyLib/src/entropy/geom/Box.cpp:8-11 | a new box has both meshDirty and colorDirty set and an empty, well-formed mesh |
| Geom.SetColor | Projects/EntropyLib/src/entropy/geom/Box.cpp:12-15 | changing the colour sets colorDirty and leaves meshDirty alone |
| Geom.SetSize | Projects/EntropyLib/src/entropy/geom/Box.cpp:16-19 | changing the size sets meshDirty and leaves colorDirty alone |
| Geom.SetEdgeWidth | Projects/EntropyLib/src/entropy/geom/Box.cpp:20-23 | changing the edge width sets meshDirty and leaves colorDirty alone |
| Geom.SetSubdivisions | Projects/EntropyLib/src/entropy/geom/Box.cpp:24-27 | changing the subdivisions sets meshDirty and leaves colorDirty alone |
| Geom.Clear | Projects/EntropyLib/src/entropy/geom/Box.cpp:37-40 | clear empties the mesh and keeps the flags |
| Geom.RebuildMesh | Projects/EntropyLib/src/entropy/geom/Box.cpp:161-314 | the rebuilt mesh has 48·(s+1) vertices and 72·(s+1) indices for s subdivisions (none when s < 0). It is well formed and has no colours, and meshDirty is false |
| Geom.Update | Projects/EntropyLib/src/entropy/geom/Box.cpp:43-72 | a disabled box returns false and is unchanged. An enabled box returns true iff a dirty flag was set, and clears both flags. A colour refresh gives one colour per vertex, all equal to the box colour. A clean mesh keeps its vertices and indices |
| Geom.UpdateIdempotent | Projects/EntropyLib/src/entropy/geom/Box.cpp:43-72 | a second update in a row reports no work and changes nothing |
| Geom.SetThenUpdateChanges | Projects/EntropyLib/src/entropy/geom/Box.cpp:12-27 | after any parameter change, the next update of an enabled box reports work |
| Geom.RebuildWithoutRecolourLeavesNoColours | Projects/EntropyLib/src/entropy/geom/Box.cpp:49-67 | a rebuild without a colour change leaves the new mesh without per-vertex colours |
| Photons.NewPhotons | Prototypes/TbbTest/src/entropy/particles/Photons.cpp:36-38 | the cursor starts at slot 0 |
| Photons.Init | Prototypes/TbbTest/src/entropy/particles/Photons.cpp:45-55 | after init there are maxPhotons positions and velocities; every position is the sentinel; every velocity is its draw times 300 |
| Photons.OnPhoton | Prototypes/TbbTest/src/entropy/particles/Photons.cpp:135-142 | the cursor ends at (old+n) mod size and stays below size. Each of the last `size` photons, photon i, is in slot (old+i+1) mod size. Slots no photon maps to are unchanged |
| Photons.Update | Prototypes/TbbTest/src/entropy/particles/Photons.cpp:144-161 | sentinel slots stay sentinel, and other slots move by velocity·dt. Pair production fires iff the draw fires and the moved slot at the cursor is active. It then reports that slot's position and velocity and resets the slot to the sentinel |
| Photons.InitThenUpdateIsQuiet | Prototypes/TbbTest/src/entropy/particles/Photons.cpp:147-153 | right after init no slot is active, so an update moves nothing and never produces a pair |
| Photons.UpdateNeverActivates | Prototypes/TbbTest/src/entropy/particles/Photons.cpp:147-160 | update never increases the number of active photons |
| Mapping.NewMapping | Projects/EntropyLib/src/entropy/util/Mapping.inl:20-25 | a new mapping holds no track and is not animated |
| Mapping.Setup | Projects/EntropyLib/src/entropy/util/Mapping.inl:33-54 | groupName is the first hierarchy name and trackName the parameter name. The display name is the non-last group names each followed by "::", then the track name (just the track name for a one-level hierarchy). animated takes that name |
| Mapping.JoinGroupsAt | Projects/EntropyLib/src/entropy/util/Mapping.inl:46-50 | each group name followed by "::" sits at the offset given by the lengths of the groups before it |
| Mapping.SetupNameLists | Projects/EntropyLib/src/entropy/util/Mapping.inl:45-53 | every non-last group of the hierarchy appears, with "::", at its position in the display name |
| Mapping.GroupTrackName | Projects/EntropyLib/src/entropy/util/Mapping.inl:94 | the track name is the group name, an underscore, and the parameter name |
| Mapping.TrackFor | Projects/EntropyLib/src/entropy/util/Mapping.inl:101-136 | the created track has the kind matching the track type and no keyframes. A curves track over a float or int parameter takes the parameter's range and its current value as default; a switches track takes the boolean's value and a colour track the colour as default |
| Mapping.AddTrack | Projects/EntropyLib/src/entropy/util/Mapping.inl:82-139 | nothing happens when a track is held. Otherwise the first page becomes current. The track set changes only if `<group>_<parameter>` was absent, and then by exactly that name, which the mapping now holds |
| Mapping.CurvesTrackRangeAndDefault | Projects/EntropyLib/src/entropy/util/Mapping.inl:103-119 | a curves track over a float or int parameter gets the range [min, max] and the current value as default |
| Mapping.AddTrackIdempotent | Projects/EntropyLib/src/entropy/util/Mapping.inl:85-99 | a second addTrack creates nothing and changes nothing |
| Mapping.RemoveTrack | Projects/EntropyLib/src/entropy/util/Mapping.inl:142-160 | without a track nothing changes. Otherwise the track is removed from the timeline and no longer held |
| Mapping.AddThenRemoveRestores | Projects/EntropyLib/src/entropy/util/Mapping.inl:83-152 | addTrack then removeTrack gives back the mapping and the timeline, except that the first page stays current |
| Mapping.Trunc | Projects/EntropyLib/src/entropy/util/Mapping.inl:76 | converting a track value for an int parameter truncates toward zero |
| Mapping.Update | Projects/EntropyLib/src/entropy/util/Mapping.inl:57-79 | without a track the parameter is unchanged. A switches track sets it to isOn, a colour track to the track colour, and a curves track to the track value (truncated for int). Ranges and names are kept |
| Mapping.UpdateIdempotent | Projects/EntropyLib/src/entropy/util/Mapping.inl:57-79 | reading the same track state twice leaves the parameter as after once |
| Strings.IntToString | Projects/EntropyLib/src/entropy/media/MediaBase.cpp:593-601 | the decimal form is non-empty, made only of digits and '-', and starts with '-' exactly for negative numbers |
| Strings.IntToStringInjective | Projects/EntropyLib/src/entropy/media/MediaBase.cpp:593-601 | different integers have different decimal forms |
| Media.TypeName | Projects/EntropyLib/src/entropy/media/MediaBase.cpp:45-60 | type names are non-empty, contain no '_', and are "Unknown" exactly for other types |
| Media.TypeNameInjective | Projects/EntropyLib/src/entropy/media/MediaBase.cpp:45-60 | different media types have different names |
| Media.TotalFade | Projects/EntropyLib/src/entropy/media/MediaBase.cpp:101-104 | the total fade is zero iff one of the track, twist and LFO fades is zero; it is positive when all are |
| Media.NewMedia | Projects/EntropyLib/src/entropy/media/MediaBase.cpp:14-30 | a new media has no active switch, no tracks, clean bounds and border, prevFade and lfoVal at 0, and no parameter listeners attached |
| Media.ShouldPlay | Projects/EntropyLib/src/entropy/media/MediaBase.cpp:522-581 | false when not loaded, with no active switch (which raises freePlayNeedsInit) or with duration ≤ 0. Timeline mode: playing iff (looping or switchMillis ≤ duration) and the timeline plays. Free play: still within duration or re-initialised. Fade control: additionally total fade ≠ 0. Linked mode: the linked media's decision, false without one |
| Media.PlayNeedsChainReady | Projects/EntropyLib/src/entropy/media/MediaBase.cpp:573-578 | a positive decision means every media along the followed link chain is loaded, has an active switch and a positive duration, and the chain ends in a non-linked media |
| Media.ShouldPlayOnlyRearms | Projects/EntropyLib/src/entropy/media/MediaBase.cpp:522-581 | apart from whatever the initFreePlay hook itself does, the only state shouldPlay changes, on the media and along its link chain, is raising freePlayNeedsInit |
| Media.SetFade | Projects/EntropyLib/src/entropy/media/MediaBase.cpp:181-190 | changing a fade always updates that fade. With the listeners attached, the new total is recorded in prevFade, and freePlayNeedsInit is raised exactly on a 0 → positive total in fade-control mode. Without listeners nothing else changes |
| Media.ApplyFadesRearms | Projects/EntropyLib/src/entropy/media/MediaBase.cpp:181-243 | over any run of fade changes in fade-control mode with the listeners attached, free play is re-armed iff the recorded totals step up from zero somewhere. In other modes, or without listeners, the flag is untouched |
| Media.SyncModeMatchesFadeRule | Projects/EntropyLib/src/entropy/media/MediaBase.cpp:245-256 | with the listeners attached, switching to fade control raises freePlayNeedsInit exactly when the fade listener would for a total rising from zero to the current total |
| Media.SetSyncMode | Projects/EntropyLib/src/entropy/media/MediaBase.cpp:245-256 | with the listeners attached, switching to free play, or to fade control with a positive total fade, raises freePlayNeedsInit. Only the mode and that flag change |
| Media.SetRenderParameter | Projects/EntropyLib/src/entropy/media/MediaBase.cpp:141-164 | a change of any of the six render parameters marks the bounds dirty exactly when the listeners are attached, and changes nothing else |
| Media.Setup | Projects/EntropyLib/src/entropy/media/MediaBase.cpp:275-280 | setup_ always leaves the bounds dirty and changes nothing else |
| Media.SetBorderWidth | Projects/EntropyLib/src/entropy/media/MediaBase.cpp:165-168 | changing the border width marks the border dirty exactly when the listeners are attached |
| Media.TrackNameInjective | Projects/EntropyLib/src/entropy/media/MediaBase.cpp:601 | `<Role>_<index>_<type>` names identify role, index and type: equal names mean equal triples |
| Media.PageNameInjective | Projects/EntropyLib/src/entropy/media/MediaBase.cpp:593 | different page numbers give different page names |
| Media.TrackNameParts | Projects/EntropyLib/src/entropy/media/MediaBase.cpp:601 | a track name splits at its two underscores into the role's prefix (`Media`, `Fade` or `LFO`), the index in decimal and the type name |
| Media.PageNameParts | Projects/EntropyLib/src/entropy/media/MediaBase.cpp:593 | a page name is the base name, an underscore, and the page number in decimal, which contains no further underscore |
| Media.EnsurePage | Projects/EntropyLib/src/entropy/media/MediaBase.cpp:592-598 | the media's page exists afterwards; a page that existed is not touched |
| Media.AddMediaTrack | Projects/EntropyLib/src/entropy/media/MediaBase.cpp:584-607 | without a timeline nothing happens. Otherwise the page `<base>_<page>` exists and holds the role's `<Role>_<index>_<type>` track. The timeline gains exactly that name. Nothing changes if the page already had it; a name new to the timeline is owned by the media |
| Media.AddMediaTrackIdempotent | Projects/EntropyLib/src/entropy/media/MediaBase.cpp:600-606 | registering the same track twice changes nothing the second time |
| Media.RemoveMediaTrack | Projects/EntropyLib/src/entropy/media/MediaBase.cpp:610-631 | with a timeline, the owned track is removed from the timeline and the media no longer refers to it; without a timeline or a track, nothing changes |
| Media.AddThenRemoveMediaTrack | Projects/EntropyLib/src/entropy/media/MediaBase.cpp:659-706 | adding a new track then removing it gives back the timeline's track names and leaves the media without the track |
| Media.SetUseFadeTrack | Projects/EntropyLib/src/entropy/media/MediaBase.cpp:170-180 | with the listeners attached and a timeline: enabling adds the fade track name to the timeline, and a name new to it becomes the media's track. Disabling removes the media's fade track from the timeline and drops the reference. Nothing else of the media changes. Without listeners or a timeline, only the setting changes |
| Media.SetUseFadeLFO | Projects/EntropyLib/src/entropy/media/MediaBase.cpp:221-233 | as for the fade track, with the LFO track. With the listeners attached, the LFO phase also resets to 0 |
| Media.Init | Projects/EntropyLib/src/entropy/media/MediaBase.cpp:125-259 | init_ records index and page and attaches the listeners. The timeline gains the switches track name, plus the fade and LFO track names when those are in use |
| Media.InitOwns | Projects/EntropyLib/src/entropy/media/MediaBase.cpp:131-139 | after init_, each track in use whose name was new to the timeline is owned by the media; tracks not in use are left as they were |
| Media.InitOwnedNames | Projects/EntropyLib/src/entropy/media/MediaBase.cpp:131-139 | a fresh media whose names are new to the timeline owns, after init_, exactly the tracks init_ registered |
| Media.ClearTracks | Projects/EntropyLib/src/entropy/media/MediaBase.cpp:262-272 | clear_ detaches the listeners and drops all three track references. The shared timeline lives on and loses exactly the names of the tracks the media referred to |
| Media.BoundsListenersAttached | Projects/EntropyLib/src/entropy/media/MediaBase.cpp:141-164 | after init_ a render parameter change marks the bounds dirty; after clear_ it leaves the flag as it was |
| Media.InitThenClearRestores | Projects/EntropyLib/src/entropy/media/MediaBase.cpp:125-272 | init_ then clear_ on a fresh media whose names are new to the timeline gives back the timeline's track names, leaving the media with no tracks and no listeners |
| Media.AddDefaultSwitch | Projects/EntropyLib/src/entropy/media/MediaBase.cpp:634-656 | false without a timeline, without a switches track, or when the track has keyframes; true exactly when there is a timeline, a switches track with no keyframe, and the timeline accepted the switch. On success the track goes from 0 to 1 keyframe; on failure the timeline is unchanged |
| Media.DefaultSwitchOnce | Projects/EntropyLib/src/entropy/media/MediaBase.cpp:648-655 | after a successful default switch, a second call fails |
| Media.BorderStripClosed | Projects/EntropyLib/src/entropy/media/MediaBase.cpp:867-885 | on the strip's indices: consecutive vertices alternate outer and inner, so every triangle spans the band. Each outer corner is followed by the inner corner at the same place. Two steps along the strip reach the next corner of the same rectangle. The strip closes on its first two vertices and passes through all eight corners |
| Media.UpdateBorder | Projects/EntropyLib/src/entropy/media/MediaBase.cpp:856-889 | a positive width gives 8 vertices and the indices 0..7, 0, 1, forming a closed strip as above. Otherwise the mesh is empty with its mode kept. The border is clean afterwards and nothing else changes |
| Linking.Local | Projects/EntropyLib/src/entropy/media/MediaBase.cpp:522-571 | a media that does not reach the linked branch decides by itself; only its own free-play flag may rise, and every holder of the shared object sees it |
| Linking.ShouldPlayAsWritten | Projects/EntropyLib/src/entropy/media/MediaBase.cpp:573-578 | the recursion as written: it either returns with only free-play flags raised, or is still inside a deferring media with a link |
| Linking.CycleNeverDecides | Projects/EntropyLib/src/entropy/media/MediaBase.cpp:573-578 | when every media of the pool defers to a linked one, the recursion as written never returns, however far it is followed |
| Linking.SelfLinkNeverDecides | Projects/EntropyLib/src/entropy/media/MediaBase.cpp:113-116 | a ready media in linked mode whose link is itself never gets an answer |
| Linking.ShouldPlayGuarded | Projects/EntropyLib/src/entropy/media/MediaBase.cpp:573-578 | the decision with the chain cut after a number of links: it always returns, raises only free-play flags, and plays only for a loaded media with an active switch and a positive duration |
| Linking.ShouldPlayLinked | Projects/EntropyLib/src/entropy/media/MediaBase.cpp:573-578 | the corrected decision, cut after as many links as there are media; only free-play flags change |
| Linking.GuardedAgrees | Projects/EntropyLib/src/entropy/media/MediaBase.cpp:573-578 | wherever the recursion as written returns within the cut, the guarded decision is identical, effects included |
| Linking.GuardedCycleDoesNotPlay | Projects/EntropyLib/src/entropy/media/MediaBase.cpp:573-578 | on a cycle the guarded decision is not to play, and nothing changes |
| Linking.ForwardLinksDecide | Projects/EntropyLib/src/entropy/media/MediaBase.cpp:573-578 | without cycles the recursion as written returns within the pool's size, and the corrected decision equals it |
| Linking.AsWrittenSettles | Projects/EntropyLib/src/entropy/media/MediaBase.cpp:573-578 | once the recursion as written has returned, following further changes nothing |

## Left out

- Vertex coordinates, the float arithmetic of `addEdge` and `rebuildMesh`, the light position, and `Box::draw`. These are float geometry and GL state; vertices are symbolic instead.
- Box.h is not part of this model. Its face enum values are replaced by a set of faces; only the order in which `addEdge` tests the flags matters.
- `Photons` GL buffers, trail-particle setup, shader uniform callbacks and `draw`: rendering only.
- Photons.Init: the random draws are an input, and `MAX_PHOTONS` is a parameter because its value is declared in a header that is not part of this model.
- Photons.Update: the frame time is a parameter, and the `ofRandomuf() < 0.02` draw is a boolean input.
- Geom.RebuildMesh: the counts 48·(s+1) and 72·(s+1) are stated for every integer s. In the program, the `int` loop counter of each run (`i <= subdivisions`, Box.cpp:175 and the eleven other runs) overflows when s is `INT_MAX`, which is undefined behaviour and in practice a loop that never ends. The indices are 32-bit `ofIndexType` values (Box.cpp:357-364) and wrap once a mesh passes 2^32 vertices. The model uses unbounded integers, so Geom.AddEdgeFaceBlocks and Geom.AddEdgeIndexBounds state unwrapped indices as well.
- `unsigned` cursor arithmetic in `onPhoton`: the model uses unbounded naturals, because the cursor is always below the slot count and never wraps.
- ofxTimeline internals: unique-name suffixing, `addPage`'s choice of current page, switch ranges, curve evaluation. The timeline is pages of named tracks with a kind, range, default and keyframe count.
- Media.ShouldPlay: `initFreePlay` is a subclass hook; its result is an input and its own state changes (resetting the start time) are not modelled. The elapsed time is an integer input, and the unsigned subtraction is not modelled as wrapping.
- Media.ShouldPlay: `linkedMedia` is a shared reference, but here the linked media is an owned value. A free-play flag raised on the linked media shows only in the returned copy, while in the program every holder of that object sees it. A chain of owned values cannot close into a cycle. Module `Linking` models the shared references and the cycle; see "## Findings".
- Media.ShouldPlayOnlyRearms: holds because `initFreePlay` is an input. The state changes the hook makes in a subclass, such as resetting the free-play start time, are outside the claim.
- Media.TotalFade: fades are reals, so "zero iff a factor is zero" is exact. In single-precision floats, three tiny positive fades can multiply to 0.0, and then shouldPlay and the fade listeners behave as for a zero fade. Float rounding is not modelled anywhere in `Media`.
- Media.Init: `init_` ends by calling the subclass hook `init()` (MediaBase.cpp:258), which is not modelled. The media frame and the exact set of track names added describe only the base class's part; a subclass that changes its own state or the timeline in `init()` is outside the claim.
- Media.ClearTracks: `clear_` starts by calling the subclass hook `clear()` (MediaBase.cpp:264), which is not modelled. The frame that keeps `loaded`, `switchMillis` and the other fields, and the exact set of track names removed, describe only the base class's part; a subclass that releases its content in `clear()` changes `isLoaded()`, which the model does not show.
- Media.Setup: `setup_` first calls the subclass hook `setup()` (MediaBase.cpp:277), which is not modelled; the frame describes only the base class's part.
- Media.AddDefaultSwitch: whether `addSwitch` succeeds is an input, and the switch's time range is not modelled.
- `MediaTimelinePageName` is declared outside the modelled files; it is the `pageBase` parameter.
- `update_`: fade track and LFO sampling (sin/cos), bounds refresh and the `switchMillis` computation from the active switch. These are float evaluation and timeline internals; `switchMillis` is a field of the media.
- `updateBounds` (aspect-fill float geometry), `renderLayout`, `draw_`, `gui_` and `serialize_`/`deserialize_`. These are rendering, GUI and JSON I/O. The render parameters' values are not modelled; their listeners and `setup_` are, as the raising of `boundsDirty`. Nothing in the model lowers `boundsDirty` again, because that happens in the bounds refresh of `update_`.
- Twister knob sync (`addTwisterSync`, `removeTwisterSync`): a hardware controller behind a compile-time switch.
- Mapping.Update: a float parameter stores the track value exactly; float rounding is not modelled.
- The other repository files (scene apps, the lighting test, the video popup, the Inflation and snapshot headers) are rendering, I/O or declaration-only code and are not part of this model.

## Findings

| source | as written | input that shows it | evidently intended | confidence | as-written member | corrected member |
|---|---|---|---|---|---|---|
| Projects/EntropyLib/src/entropy/media/MediaBase.cpp:573-578 | in linked mode, shouldPlay returns `linkedMedia->shouldPlay()` with no guard against a link cycle, so the recursion never returns | a media linked to itself (`setLinkedMedia` at line 113), or A linked to B and B to A, each loaded, with an active switch, a positive duration and linked sync mode | a link cycle gives no playback and the call returns | medium (not executed; the GUI may never create such links) | Linking.ShouldPlayAsWritten, with Linking.CycleNeverDecides and Linking.SelfLinkNeverDecides | Linking.ShouldPlayLinked, with Linking.GuardedCycleDoesNotPlay, Linking.GuardedAgrees and Linking.ForwardLinksDecide |
