/** The part of an ofxTimeline that parameter mappings and media use: a
    non-empty list of named pages, each holding tracks by name, a current
    page that new tracks are added to, and the play state. Track contents
    (curves, switch ranges) are abstracted to a kind, an optional value
    range, a default and a keyframe count. */
module Timeline {
  import opened Common

  datatype TrackKind = CurvesTrack | SwitchesTrack | ColorTrack

  /** The default a track was given when it was created, if any. */
  datatype Default = NoDefault | DefaultValue(x: real) | DefaultOn(on: bool) | DefaultColor(c: Color)

  datatype Track = Track(kind: TrackKind, range: Option<(real, real)>, default: Default, keyframes: nat)

  datatype Page = Page(name: string, tracks: map<string, Track>)

  datatype Timeline = Timeline(pages: seq<Page>, current: nat, playing: bool)

  /** A timeline always has a page and the current page exists. */
  predicate Valid(tl: Timeline) {
    0 < |tl.pages| && tl.current < |tl.pages|
  }

  /** A fresh track of the given kind, with no range, default or keyframe. */
  function NewTrack(kind: TrackKind): Track {
    Track(kind, None, NoDefault, 0)
  }

  /** Every track name on every page. */
  function TrackNames(tl: Timeline): set<string> {
    set i, n | 0 <= i < |tl.pages| && n in tl.pages[i].tracks :: n
  }

  /** The first page called `name`, if any. */
  function FindPage(pages: seq<Page>, name: string): (r: Option<nat>)
    ensures r.Some? ==> r.value < |pages| && pages[r.value].name == name
    ensures r.Some? ==> forall i :: 0 <= i < r.value ==> pages[i].name != name
    ensures r.None? <==> forall i :: 0 <= i < |pages| ==> pages[i].name != name
  {
    if |pages| == 0 then None
    else if pages[0].name == name then Some(0)
    else match FindPage(pages[1..], name)
      case None => None
      case Some(k) => Some(k + 1)
  }

  function HasPage(tl: Timeline, name: string): bool {
    FindPage(tl.pages, name).Some?
  }

  /** A new empty page at the end; the current page is not changed. */
  function AddPage(tl: Timeline, name: string): (r: Timeline)
    requires Valid(tl)
    ensures Valid(r) && HasPage(r, name)
    ensures TrackNames(r) == TrackNames(tl)
  {
    var r := tl.(pages := tl.pages + [Page(name, map[])]);
    assert r.pages[|tl.pages|].name == name;
    assert forall i :: 0 <= i < |tl.pages| ==> r.pages[i] == tl.pages[i];
    r
  }

  function SetCurrentPage(tl: Timeline, i: nat): (r: Timeline)
    requires Valid(tl) && i < |tl.pages|
    ensures Valid(r) && r.current == i
    ensures r.pages == tl.pages && r.playing == tl.playing
  {
    tl.(current := i)
  }

  /** Adds (or replaces) the track `name` on the current page. */
  function AddTrack(tl: Timeline, name: string, t: Track): (r: Timeline)
    requires Valid(tl)
    ensures Valid(r) && r.current == tl.current && |r.pages| == |tl.pages|
    ensures r.pages[tl.current].tracks == tl.pages[tl.current].tracks[name := t]
    ensures forall i :: 0 <= i < |r.pages| && i != tl.current ==> r.pages[i] == tl.pages[i]
  {
    var p := tl.pages[tl.current];
    tl.(pages := tl.pages[tl.current := Page(p.name, p.tracks[name := t])])
  }

  /** Removes the track `name` from whatever page holds it; pages stay. */
  function RemoveTrack(tl: Timeline, name: string): (r: Timeline)
    requires Valid(tl)
    ensures Valid(r) && r.current == tl.current && |r.pages| == |tl.pages|
    ensures forall i :: 0 <= i < |r.pages| ==>
      r.pages[i].name == tl.pages[i].name && r.pages[i].tracks == tl.pages[i].tracks - {name}
  {
    tl.(pages := seq(|tl.pages|, i requires 0 <= i < |tl.pages| =>
      Page(tl.pages[i].name, tl.pages[i].tracks - {name})))
  }

  /** The first track called `name`, searching the pages in order. */
  function FindTrack(pages: seq<Page>, name: string): (r: Option<Track>)
    ensures r.Some? <==> exists i :: 0 <= i < |pages| && name in pages[i].tracks
  {
    if |pages| == 0 then None
    else if name in pages[0].tracks then Some(pages[0].tracks[name])
    else
      var r := FindTrack(pages[1..], name);
      assert forall i :: 1 <= i < |pages| ==> pages[i] == pages[1..][i - 1];
      r
  }

  /** Adds one keyframe to the track `name` wherever it is held. */
  function AddKeyframe(tl: Timeline, name: string): (r: Timeline)
    requires Valid(tl)
    ensures Valid(r) && r.current == tl.current && |r.pages| == |tl.pages|
    ensures TrackNames(r) == TrackNames(tl)
  {
    var r := tl.(pages := seq(|tl.pages|, i requires 0 <= i < |tl.pages| => Bump(tl.pages[i], name)));
    assert forall i :: 0 <= i < |tl.pages| ==> r.pages[i].tracks.Keys == tl.pages[i].tracks.Keys;
    r
  }

  /** One page after a keyframe is added to its track `name`, if it has one. */
  function Bump(p: Page, name: string): (r: Page)
    ensures r.name == p.name && r.tracks.Keys == p.tracks.Keys
  {
    if name in p.tracks then Page(p.name, p.tracks[name := p.tracks[name].(keyframes := p.tracks[name].keyframes + 1)])
    else p
  }

  /** After a keyframe is added, the track found under `name` is the one
      found before with one keyframe more. */
  lemma FindTrackAfterKeyframe(tl: Timeline, name: string)
    requires Valid(tl) && FindTrack(tl.pages, name).Some?
    ensures var t := FindTrack(tl.pages, name).value;
      FindTrack(AddKeyframe(tl, name).pages, name) == Some(t.(keyframes := t.keyframes + 1))
  {
    FindTrackBumped(tl.pages, AddKeyframe(tl, name).pages, name);
  }

  lemma {:induction false} FindTrackBumped(pages: seq<Page>, bumped: seq<Page>, name: string)
    requires |bumped| == |pages|
    requires forall i :: 0 <= i < |pages| ==> bumped[i] == Bump(pages[i], name)
    ensures match FindTrack(pages, name)
      case None => FindTrack(bumped, name).None?
      case Some(t) => FindTrack(bumped, name) == Some(t.(keyframes := t.keyframes + 1))
    decreases |pages|
  {
    if |pages| > 0 && name !in pages[0].tracks {
      assert name !in bumped[0].tracks;
      FindTrackBumped(pages[1..], bumped[1..], name);
    }
  }

  lemma TrackNamesAfterAdd(tl: Timeline, name: string, t: Track)
    requires Valid(tl)
    ensures TrackNames(AddTrack(tl, name, t)) == TrackNames(tl) + {name}
  {
    var r := AddTrack(tl, name, t);
    forall n | n in TrackNames(tl) + {name}
      ensures n in TrackNames(r)
    {
      if n == name {
        assert n in r.pages[tl.current].tracks;
      } else {
        var i :| 0 <= i < |tl.pages| && n in tl.pages[i].tracks;
        assert n in r.pages[i].tracks;
      }
    }
  }

  lemma TrackNamesAfterRemove(tl: Timeline, name: string)
    requires Valid(tl)
    ensures TrackNames(RemoveTrack(tl, name)) == TrackNames(tl) - {name}
  {
    var r := RemoveTrack(tl, name);
    forall n | n in TrackNames(tl) - {name}
      ensures n in TrackNames(r)
    {
      var i :| 0 <= i < |tl.pages| && n in tl.pages[i].tracks;
      assert n in r.pages[i].tracks;
    }
  }

  /** Adding a track that no page held and removing it again gives back the
      same timeline. */
  lemma AddThenRemove(tl: Timeline, name: string, t: Track)
    requires Valid(tl) && name !in TrackNames(tl)
    ensures RemoveTrack(AddTrack(tl, name, t), name) == tl
  {
    var r := RemoveTrack(AddTrack(tl, name, t), name);
    forall i | 0 <= i < |tl.pages|
      ensures r.pages[i] == tl.pages[i]
    {
      assert name !in tl.pages[i].tracks;
      assert r.pages[i].tracks == tl.pages[i].tracks;
    }
  }
}
