/** entropy::util::Mapping: links one ofParameter to one timeline track.
    The mapping derives its names from the parameter's group hierarchy,
    registers a track called "<group>_<parameter>" on the timeline at most
    once, and copies the track's value into the parameter on update. The
    template arguments become a track type tag and a tagged parameter value. */
module Mapping {
  import opened Common
  import TL = Timeline

  /** The TrackType template argument. */
  datatype TrackType = CurvesType | SwitchesType | ColorType | OtherType

  /** The parameter's value, tagged with the ParameterType template argument;
      numeric parameters carry their [min, max] range. */
  datatype Value =
    | FloatValue(x: real, min: real, max: real)
    | IntValue(n: int, lo: int, hi: int)
    | BoolValue(b: bool)
    | ColorValue(c: Color)

  /** An ofParameter: its name, the names of its group hierarchy from the
      top-level group down (getGroupHierarchyNames) and its value. */
  datatype Parameter = Parameter(name: string, groups: seq<string>, value: Value)

  datatype Mapping = Mapping(
    trackType: TrackType,
    parameter: Option<Parameter>,
    trackName: string,
    groupName: string,
    name: string,
    animatedName: string,
    animated: bool,
    track: Option<string>)

  /** What the track reads at the current time: a curve value, a switch
      state, a colour. */
  datatype TrackReading = TrackReading(value: real, on: bool, color: Color)

  /** Parameter types that each track type is instantiated with: curves
      drive float or int parameters, switches drive bool parameters, colour
      tracks drive colour parameters. */
  predicate Compatible(t: TrackType, v: Value) {
    match t
    case CurvesType => v.FloatValue? || v.IntValue?
    case SwitchesType => v.BoolValue?
    case ColorType => v.ColorValue?
    case OtherType => true
  }

  /** A mapping holds a track only with a parameter of a matching type. */
  predicate Ready(m: Mapping) {
    m.track.Some? ==> m.parameter.Some? && Compatible(m.trackType, m.parameter.value.value)
  }

  /** Mapping(): no track, not animated. */
  function NewMapping(t: TrackType): (m: Mapping)
    ensures m.track.None? && !m.animated && m.trackType == t && Ready(m)
  {
    Mapping(t, None, "", "", "", "", false, None)
  }

  // ---------------------------------------------------------------------
  // setup

  /** Each group name followed by "::", in order. */
  function JoinGroups(gs: seq<string>): (r: string)
    ensures |r| == Width(gs)
  {
    if |gs| == 0 then "" else gs[0] + "::" + JoinGroups(gs[1..])
  }

  /** Length of the names gs[0..] with their separators. */
  function Width(gs: seq<string>): nat {
    if |gs| == 0 then 0 else |gs[0]| + 2 + Width(gs[1..])
  }

  /** Group name i of the joined prefix starts after the widths of the names
      before it and is followed by "::". */
  lemma {:induction false} JoinGroupsAt(gs: seq<string>, i: nat)
    requires i < |gs|
    ensures var r := JoinGroups(gs); var o := Width(gs[..i]);
      o + |gs[i]| + 2 <= |r| && r[o .. o + |gs[i]| + 2] == gs[i] + "::"
  {
    var r := JoinGroups(gs);
    if i == 0 {
      assert gs[..0] == [];
      assert r[0 .. |gs[0]| + 2] == gs[0] + "::";
    } else {
      var t := gs[1..];
      JoinGroupsAt(t, i - 1);
      assert gs[..i][1..] == t[..i - 1];
      var o := Width(gs[..i]);
      assert o == |gs[0]| + 2 + Width(t[..i - 1]);
      var p := gs[0] + "::";
      assert r == p + JoinGroups(t);
      assert r[o .. o + |gs[i]| + 2] == JoinGroups(t)[o - |p| .. o - |p| + |gs[i]| + 2];
    }
  }

  /** setup(parameter): the track name is the parameter's name, the group
      name is the top-level group, and the display name (also given to
      `animated`) is every group but the last followed by "::", then the
      track name. The hierarchy is never empty; its last entry is the
      parameter itself. */
  function Setup(m: Mapping, p: Parameter): (r: Mapping)
    requires |p.groups| > 0
    ensures r.parameter == Some(p) && r.trackName == p.name && r.groupName == p.groups[0]
    ensures r.animatedName == r.name
    ensures |r.name| == Width(p.groups[..|p.groups| - 1]) + |p.name|
    ensures r.name[|r.name| - |p.name|..] == p.name
    ensures |p.groups| == 1 ==> r.name == p.name
    ensures |p.groups| > 1 ==> r.name[..|p.groups[0]| + 2] == p.groups[0] + "::"
    ensures r.track == m.track && r.trackType == m.trackType && r.animated == m.animated
  {
    var gs := p.groups[..|p.groups| - 1];
    var name := JoinGroups(gs) + p.name;
    assert |gs| > 0 ==> JoinGroups(gs) == (gs[0] + "::") + JoinGroups(gs[1..]);
    m.(parameter := Some(p), trackName := p.name, groupName := p.groups[0], name := name, animatedName := name)
  }

  /** Every non-last group appears in the display name, at the position
      given by the groups before it. */
  lemma SetupNameLists(m: Mapping, p: Parameter, i: nat)
    requires |p.groups| > 0 && i < |p.groups| - 1
    ensures var r := Setup(m, p); var o := Width(p.groups[..i]);
      o + |p.groups[i]| + 2 <= |r.name| && r.name[o .. o + |p.groups[i]| + 2] == p.groups[i] + "::"
  {
    var gs := p.groups[..|p.groups| - 1];
    JoinGroupsAt(gs, i);
    assert gs[..i] == p.groups[..i];
    var r := Setup(m, p);
    var o := Width(p.groups[..i]);
    assert r.name == JoinGroups(gs) + p.name;
    assert r.name[o .. o + |p.groups[i]| + 2] == JoinGroups(gs)[o .. o + |p.groups[i]| + 2];
  }

  // ---------------------------------------------------------------------
  // addTrack / removeTrack

  /** The timeline name of the mapping's track. */
  function GroupTrackName(m: Mapping): (r: string)
    ensures |r| == |m.groupName| + 1 + |m.trackName|
    ensures r[..|m.groupName|] == m.groupName && r[|m.groupName|] == '_'
    ensures r[|m.groupName| + 1..] == m.trackName
  {
    m.groupName + "_" + m.trackName
  }

  /** True when addTrack creates a track: none held, the name is free, and
      the track type is one addTrack knows. */
  predicate Creates(m: Mapping, tl: TL.Timeline) {
    m.track.None? && GroupTrackName(m) !in TL.TrackNames(tl) && m.trackType != OtherType
  }

  /** The track addTrack creates: curves over a float or int parameter get
      the parameter's range and its current value as default; switches and
      colour tracks get the current value as default. */
  function TrackFor(t: TrackType, v: Value): (r: TL.Track)
    requires t != OtherType
    ensures r.keyframes == 0
    ensures t == CurvesType ==> r.kind == TL.CurvesTrack
    ensures t == SwitchesType ==> r.kind == TL.SwitchesTrack
    ensures t == ColorType ==> r.kind == TL.ColorTrack
    ensures t == CurvesType && v.FloatValue? ==> r.range == Some((v.min, v.max)) && r.default == TL.DefaultValue(v.x)
    ensures t == CurvesType && v.IntValue? ==>
      r.range == Some((v.lo as real, v.hi as real)) && r.default == TL.DefaultValue(v.n as real)
    ensures t == SwitchesType && v.BoolValue? ==> r.default == TL.DefaultOn(v.b)
    ensures t == ColorType && v.ColorValue? ==> r.default == TL.DefaultColor(v.c)
  {
    match t
    case CurvesType =>
      (match v
       case FloatValue(x, lo, hi) => TL.Track(TL.CurvesTrack, Some((lo, hi)), TL.DefaultValue(x), 0)
       case IntValue(n, lo, hi) => TL.Track(TL.CurvesTrack, Some((lo as real, hi as real)), TL.DefaultValue(n as real), 0)
       case _ => TL.NewTrack(TL.CurvesTrack))
    case SwitchesType =>
      TL.Track(TL.SwitchesTrack, None, if v.BoolValue? then TL.DefaultOn(v.b) else TL.NoDefault, 0)
    case ColorType =>
      TL.Track(TL.ColorTrack, None, if v.ColorValue? then TL.DefaultColor(v.c) else TL.NoDefault, 0)
  }

  datatype Registered = Registered(mapping: Mapping, timeline: TL.Timeline)

  /** addTrack(timeline): nothing if a track is held; otherwise the first page
      becomes current and, unless the timeline already has a track of that
      name, a track "<group>_<parameter>" of the mapping's type is added to
      it and held. */
  function AddTrack(m: Mapping, tl: TL.Timeline): (r: Registered)
    requires TL.Valid(tl)
    requires Creates(m, tl) ==> m.parameter.Some? && Compatible(m.trackType, m.parameter.value.value)
    ensures TL.Valid(r.timeline)
    ensures m.track.Some? ==> r == Registered(m, tl)
    ensures m.track.None? ==> r.timeline.current == 0 && |r.timeline.pages| == |tl.pages|
    ensures !Creates(m, tl) ==> r.mapping == m && TL.TrackNames(r.timeline) == TL.TrackNames(tl)
    ensures Creates(m, tl) ==>
      && r.mapping == m.(track := Some(GroupTrackName(m)))
      && TL.TrackNames(r.timeline) == TL.TrackNames(tl) + {GroupTrackName(m)}
      && GroupTrackName(m) in r.timeline.pages[0].tracks
      && r.timeline.pages[0].tracks[GroupTrackName(m)] == TrackFor(m.trackType, m.parameter.value.value)
    ensures Ready(m) ==> Ready(r.mapping)
  {
    if m.track.Some? then Registered(m, tl)
    else
      var tl0 := TL.SetCurrentPage(tl, 0);
      var key := GroupTrackName(m);
      if key in TL.TrackNames(tl0) || m.trackType == OtherType then Registered(m, tl0)
      else
        var t := TrackFor(m.trackType, m.parameter.value.value);
        TL.TrackNamesAfterAdd(tl0, key, t);
        Registered(m.(track := Some(key)), TL.AddTrack(tl0, key, t))
  }

  /** For a curves mapping of a float or int parameter, the created track's
      range is the parameter's [min, max] and its default the current value. */
  lemma CurvesTrackRangeAndDefault(m: Mapping, tl: TL.Timeline)
    requires TL.Valid(tl) && Creates(m, tl) && m.trackType == CurvesType
    requires m.parameter.Some? && Compatible(m.trackType, m.parameter.value.value)
    ensures var t := AddTrack(m, tl).timeline.pages[0].tracks[GroupTrackName(m)];
      match m.parameter.value.value
      case FloatValue(x, lo, hi) => t.range == Some((lo, hi)) && t.default == TL.DefaultValue(x)
      case IntValue(n, lo, hi) => t.range == Some((lo as real, hi as real)) && t.default == TL.DefaultValue(n as real)
      case _ => false
  {
  }

  /** A second addTrack changes nothing more. */
  lemma AddTrackIdempotent(m: Mapping, tl: TL.Timeline)
    requires TL.Valid(tl)
    requires Creates(m, tl) ==> m.parameter.Some? && Compatible(m.trackType, m.parameter.value.value)
    ensures var r := AddTrack(m, tl); !Creates(r.mapping, r.timeline) && AddTrack(r.mapping, r.timeline) == r
  {
  }

  /** removeTrack(timeline): nothing without a track; otherwise the track is
      removed from the timeline and no longer held. */
  function RemoveTrack(m: Mapping, tl: TL.Timeline): (r: Registered)
    requires TL.Valid(tl)
    ensures TL.Valid(r.timeline) && r.mapping.track.None?
    ensures m.track.None? ==> r == Registered(m, tl)
    ensures m.track.Some? ==>
      r.mapping == m.(track := None) && TL.TrackNames(r.timeline) == TL.TrackNames(tl) - {m.track.value}
    ensures Ready(m) ==> Ready(r.mapping)
  {
    match m.track
    case None => Registered(m, tl)
    case Some(n) =>
      TL.TrackNamesAfterRemove(tl, n);
      Registered(m.(track := None), TL.RemoveTrack(tl, n))
  }

  /** addTrack followed by removeTrack gives back the mapping and the
      timeline; only the current page stays at the first page. */
  lemma AddThenRemoveRestores(m: Mapping, tl: TL.Timeline)
    requires TL.Valid(tl) && Creates(m, tl)
    requires m.parameter.Some? && Compatible(m.trackType, m.parameter.value.value)
    ensures var a := AddTrack(m, tl); RemoveTrack(a.mapping, a.timeline) == Registered(m, TL.SetCurrentPage(tl, 0))
  {
    var tl0 := TL.SetCurrentPage(tl, 0);
    assert TL.TrackNames(tl0) == TL.TrackNames(tl);
    TL.AddThenRemove(tl0, GroupTrackName(m), TrackFor(m.trackType, m.parameter.value.value));
  }

  // ---------------------------------------------------------------------
  // update

  /** Float to int conversion, which truncates toward zero. */
  function Trunc(x: real): (n: int)
    ensures x >= 0.0 ==> n as real <= x < n as real + 1.0
    ensures x < 0.0 ==> n as real - 1.0 < x <= n as real
  {
    if x >= 0.0 then x.Floor else -((-x).Floor)
  }

  /** The parameter value after update reads the track. */
  function Assign(t: TrackType, v: Value, rd: TrackReading): (r: Value)
    requires Compatible(t, v)
    ensures Compatible(t, r)
  {
    match t
    case SwitchesType => BoolValue(rd.on)
    case ColorType => ColorValue(rd.color)
    case _ =>
      match v
      case FloatValue(_, lo, hi) => FloatValue(rd.value, lo, hi)
      case IntValue(_, lo, hi) => IntValue(Trunc(rd.value), lo, hi)
      case _ => v
  }

  /** update(): without a track the parameter is untouched; a switches track
      sets it to whether a switch is on, a colour track to the track colour,
      a curves track to the curve value (truncated for an int parameter).
      Ranges are kept and nothing else changes. */
  function Update(m: Mapping, rd: TrackReading): (r: Mapping)
    requires Ready(m)
    ensures Ready(r) && r.track == m.track && r.name == m.name && r.trackType == m.trackType
    ensures m.track.None? ==> r == m
    ensures m.track.Some? ==> r.parameter.Some? && r.parameter.value.name == m.parameter.value.name
    ensures m.track.Some? && m.trackType == SwitchesType ==> r.parameter.value.value == BoolValue(rd.on)
    ensures m.track.Some? && m.trackType == ColorType ==> r.parameter.value.value == ColorValue(rd.color)
    ensures m.track.Some? && m.trackType == CurvesType ==>
      match m.parameter.value.value
      case FloatValue(_, lo, hi) => r.parameter.value.value == FloatValue(rd.value, lo, hi)
      case IntValue(_, lo, hi) => r.parameter.value.value == IntValue(Trunc(rd.value), lo, hi)
      case _ => false
  {
    if m.track.None? then m
    else
      var p := m.parameter.value;
      m.(parameter := Some(p.(value := Assign(m.trackType, p.value, rd))))
  }

  /** Reading the same track state twice leaves the parameter as after once. */
  lemma UpdateIdempotent(m: Mapping, rd: TrackReading)
    requires Ready(m)
    ensures Update(Update(m, rd), rd) == Update(m, rd)
  {
  }
}
