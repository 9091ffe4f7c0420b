/** entropy::media::Base: the playback decision, the listeners that re-arm
    free play, the registration of a media's timeline tracks and its border
    strip. Media content (images, movies, sounds), bounds geometry and
    drawing are outside this model; the shared timeline is the Timeline
    model, passed in and returned. */
module Media {
  import opened Common
  import opened Strings
  import opened Meshes
  import TL = Timeline

  datatype MediaType = Image | Movie | HPV | Sound | UnknownType

  /** getTypeName. */
  function TypeName(t: MediaType): (r: string)
    ensures |r| > 0 && '_' !in r
    ensures t == UnknownType <==> r == "Unknown"
  {
    match t
    case Image => "Image"
    case Movie => "Movie"
    case HPV => "HPV"
    case Sound => "Sound"
    case UnknownType => "Unknown"
  }

  /** Different types have different names. */
  lemma TypeNameInjective(a: MediaType, b: MediaType)
    requires TypeName(a) == TypeName(b)
    ensures a == b
  {
  }

  datatype SyncMode = FreePlay | TimelineSync | FadeControl | LinkedMedia

  /** The three fade factors: the fade track, the Twister knob and the LFO. */
  datatype Fades = Fades(track: real, twist: real, lfo: real)

  /** getTotalFade: the product of the three factors. */
  function TotalFade(f: Fades): (r: real)
    ensures r == 0.0 <==> f.track == 0.0 || f.twist == 0.0 || f.lfo == 0.0
    ensures f.track > 0.0 && f.twist > 0.0 && f.lfo > 0.0 ==> r > 0.0
  {
    var tw := f.track * f.twist;
    assert tw == 0.0 <==> f.track == 0.0 || f.twist == 0.0;
    tw * f.lfo
  }

  /** The playback and border parameters a media reads. */
  datatype Settings = Settings(
    syncMode: SyncMode,
    loop: bool,
    fades: Fades,
    useFadeTrack: bool,
    useFadeLFO: bool,
    borderWidth: real)

  /** The eight border vertices: four corners of the outer rectangle (grown by
      the border width) and of the inner one (the destination bounds). */
  datatype Ring = Outer | Inner
  datatype Corner = MinMin | MaxMin | MaxMax | MinMax
  datatype BorderVertex = BorderVertex(ring: Ring, corner: Corner)

  datatype Media = Media(
    mediaType: MediaType,
    index: int,
    page: int,
    settings: Settings,
    loaded: bool,
    durationMs: real,
    switchMillis: real,
    prevFade: real,
    freePlayNeedsInit: bool,
    freePlayStartMs: int,
    linked: Option<Media>,
    lfoVal: real,
    switchesTrack: Option<string>,
    curvesTrack: Option<string>,
    lfoTrack: Option<string>,
    boundsDirty: bool,
    borderDirty: bool,
    border: Mesh<BorderVertex>,
    listening: bool)

  /** Base(type): nothing loaded, no active switch (switchMillis -1), no
      tracks, clean bounds and border, fade history at zero, and no
      parameter listeners until init_. */
  function NewMedia(t: MediaType, s: Settings): (m: Media)
    ensures m.mediaType == t && m.settings == s && !m.loaded
    ensures m.switchMillis < 0.0 && m.prevFade == 0.0 && m.lfoVal == 0.0
    ensures !m.freePlayNeedsInit && !m.boundsDirty && !m.borderDirty
    ensures m.switchesTrack.None? && m.curvesTrack.None? && m.lfoTrack.None? && m.linked.None?
    ensures !m.listening
  {
    Media(t, 0, 0, s, false, 0.0, -1.0, 0.0, false, 0, None, 0.0, None, None, None, false, false, Empty(), false)
  }

  // ---------------------------------------------------------------------
  // shouldPlay

  /** What shouldPlay reads from outside the media: the elapsed time, whether
      the timeline plays, and the subclass's initFreePlay, which reports
      whether it (re)started free play. */
  datatype PlayEnv = PlayEnv(nowMs: int, timelinePlaying: bool, initFreePlay: Media -> bool)

  datatype Decision = Decision(play: bool, media: Media)

  /** Free play keeps going unless it was not (re)started, the media does
      not loop and more than its duration has elapsed since the start. */
  predicate FreePlayOn(m: Media, env: PlayEnv) {
    env.initFreePlay(m) || m.settings.loop || !(m.durationMs < (env.nowMs - m.freePlayStartMs) as real)
  }

  /** shouldPlay: the decision, and the media with the free-play flag it may
      have raised (on itself, or on the linked media it defers to). */
  function ShouldPlay(m: Media, env: PlayEnv): (r: Decision)
    decreases m
    ensures !m.loaded ==> !r.play && r.media == m
    ensures m.loaded && m.switchMillis < 0.0 ==> !r.play && r.media == m.(freePlayNeedsInit := true)
    ensures m.durationMs <= 0.0 ==> !r.play
    ensures m.loaded && m.switchMillis >= 0.0 && m.durationMs <= 0.0 ==> r.media == m
    ensures r.play ==> m.loaded && m.switchMillis >= 0.0 && m.durationMs > 0.0
    ensures m.loaded && m.switchMillis >= 0.0 && m.settings.syncMode != LinkedMedia ==> r.media == m
    ensures m.loaded && m.switchMillis >= 0.0 && m.durationMs > 0.0 && m.settings.syncMode == TimelineSync ==>
      r.play == ((m.settings.loop || m.switchMillis <= m.durationMs) && env.timelinePlaying)
    ensures m.loaded && m.switchMillis >= 0.0 && m.durationMs > 0.0 && m.settings.syncMode == FreePlay ==>
      r.play == FreePlayOn(m, env)
    ensures m.loaded && m.switchMillis >= 0.0 && m.durationMs > 0.0 && m.settings.syncMode == FadeControl ==>
      r.play == (TotalFade(m.settings.fades) != 0.0 && FreePlayOn(m, env))
    ensures m.loaded && m.switchMillis >= 0.0 && m.durationMs > 0.0 && m.settings.syncMode == LinkedMedia ==>
      r.play == (m.linked.Some? && ShouldPlay(m.linked.value, env).play)
  {
    if !m.loaded then Decision(false, m)
    else if m.switchMillis < 0.0 then Decision(false, m.(freePlayNeedsInit := true))
    else if m.durationMs <= 0.0 then Decision(false, m)
    else
      match m.settings.syncMode
      case TimelineSync =>
        if !m.settings.loop && m.durationMs < m.switchMillis then Decision(false, m)
        else Decision(env.timelinePlaying, m)
      case FreePlay => Decision(FreePlayOn(m, env), m)
      case FadeControl =>
        if TotalFade(m.settings.fades) == 0.0 then Decision(false, m)
        else Decision(FreePlayOn(m, env), m)
      case LinkedMedia =>
        match m.linked
        case None => Decision(false, m)
        case Some(l) =>
          var d := ShouldPlay(l, env);
          Decision(d.play, m.(linked := Some(d.media)))
  }

  /** Every media along the chain of links a decision follows is loaded,
      has an active switch and a positive duration, and the chain ends in a
      media that does not defer. */
  predicate ChainReady(m: Media)
    decreases m
  {
    && m.loaded && m.switchMillis >= 0.0 && m.durationMs > 0.0
    && (m.settings.syncMode == LinkedMedia ==> m.linked.Some? && ChainReady(m.linked.value))
  }

  lemma {:induction false} PlayNeedsChainReady(m: Media, env: PlayEnv)
    requires ShouldPlay(m, env).play
    ensures ChainReady(m)
    decreases m
  {
    if m.settings.syncMode == LinkedMedia {
      PlayNeedsChainReady(m.linked.value, env);
    }
  }

  /** `b` is `a` with some free-play flags raised along the link chain and
      nothing else changed. */
  predicate Rearmed(a: Media, b: Media)
    decreases a
  {
    && b == a.(freePlayNeedsInit := b.freePlayNeedsInit, linked := b.linked)
    && (a.freePlayNeedsInit ==> b.freePlayNeedsInit)
    && a.linked.None? == b.linked.None?
    && (a.linked.Some? && b.linked.Some? ==> Rearmed(a.linked.value, b.linked.value))
  }

  /** The only state shouldPlay changes is raising free-play flags. */
  lemma {:induction false} ShouldPlayOnlyRearms(m: Media, env: PlayEnv)
    ensures Rearmed(m, ShouldPlay(m, env).media)
    decreases m
  {
    RearmedRefl(m);
    if m.loaded && m.switchMillis < 0.0 {
      if m.linked.Some? {
        RearmedRefl(m.linked.value);
      }
    } else if m.loaded && m.durationMs > 0.0 && m.settings.syncMode == LinkedMedia && m.linked.Some? {
      ShouldPlayOnlyRearms(m.linked.value, env);
    }
  }

  lemma {:induction false} RearmedRefl(m: Media)
    ensures Rearmed(m, m)
    decreases m
  {
    if m.linked.Some? {
      RearmedRefl(m.linked.value);
    }
  }

  // ---------------------------------------------------------------------
  // parameter listeners

  datatype FadeSource = TrackFade | TwistFade | LfoFade

  function WithFade(f: Fades, src: FadeSource, v: real): Fades {
    match src
    case TrackFade => f.(track := v)
    case TwistFade => f.(twist := v)
    case LfoFade => f.(lfo := v)
  }

  /** A change of the fadeTrack, fadeTwist or fadeLFO parameter. While the
      listeners are attached (between init_ and clear_), a total fade that
      rises from zero in fade-control mode re-arms free play and the total
      is recorded for the next change; otherwise only the parameter moves. */
  function SetFade(m: Media, src: FadeSource, v: real): (r: Media)
    ensures r.settings.fades == WithFade(m.settings.fades, src, v)
    ensures r.settings == m.settings.(fades := r.settings.fades)
    ensures m.listening ==> r.prevFade == TotalFade(r.settings.fades)
    ensures r.freePlayNeedsInit <==> (m.freePlayNeedsInit || (m.listening &&
      m.settings.syncMode == FadeControl && m.prevFade == 0.0 && TotalFade(r.settings.fades) > 0.0))
    ensures !m.listening ==> r == m.(settings := r.settings)
    ensures r == m.(settings := r.settings, prevFade := r.prevFade, freePlayNeedsInit := r.freePlayNeedsInit)
  {
    var s := m.settings.(fades := WithFade(m.settings.fades, src, v));
    if !m.listening then m.(settings := s)
    else
      var total := TotalFade(s.fades);
      var rearm := s.syncMode == FadeControl && m.prevFade == 0.0 && total > 0.0;
      m.(settings := s, prevFade := total, freePlayNeedsInit := m.freePlayNeedsInit || rearm)
  }

  /** A run of fade changes, applied in order. */
  function ApplyFades(m: Media, cs: seq<(FadeSource, real)>): (r: Media)
    ensures r.settings.syncMode == m.settings.syncMode && r.listening == m.listening
    decreases |cs|
  {
    if |cs| == 0 then m else ApplyFades(SetFade(m, cs[0].0, cs[0].1), cs[1..])
  }

  /** The total fade after each change of a run. */
  function Totals(f: Fades, cs: seq<(FadeSource, real)>): (ts: seq<real>)
    ensures |ts| == |cs|
    decreases |cs|
  {
    if |cs| == 0 then []
    else
      var g := WithFade(f, cs[0].0, cs[0].1);
      [TotalFade(g)] + Totals(g, cs[1..])
  }

  /** Some step of the trace goes from zero to a positive value. */
  predicate RisesFromZero(trace: seq<real>) {
    exists k :: 0 <= k < |trace| - 1 && trace[k] == 0.0 && trace[k + 1] > 0.0
  }

  /** Over a run of fade changes in fade-control mode with the listeners
      attached, free play is re-armed exactly when the recorded total,
      followed by the totals after each change, steps up from zero
      somewhere; otherwise the fade changes never touch the flag. */
  lemma {:induction false} ApplyFadesRearms(m: Media, cs: seq<(FadeSource, real)>)
    ensures m.listening && m.settings.syncMode == FadeControl ==>
      (ApplyFades(m, cs).freePlayNeedsInit <==>
        m.freePlayNeedsInit || RisesFromZero([m.prevFade] + Totals(m.settings.fades, cs)))
    ensures !m.listening || m.settings.syncMode != FadeControl ==>
      ApplyFades(m, cs).freePlayNeedsInit == m.freePlayNeedsInit
    decreases |cs|
  {
    if |cs| == 0 {
      assert !RisesFromZero([m.prevFade]);
    } else {
      var n := SetFade(m, cs[0].0, cs[0].1);
      ApplyFadesRearms(n, cs[1..]);
      if m.listening {
        var rest := Totals(n.settings.fades, cs[1..]);
        var trace := [m.prevFade] + Totals(m.settings.fades, cs);
        assert trace == [m.prevFade] + ([n.prevFade] + rest);
        RisesFromZeroCons(m.prevFade, [n.prevFade] + rest);
      }
    }
  }

  /** A trace rises from zero iff its first step does or its tail rises. */
  lemma RisesFromZeroCons(p: real, t: seq<real>)
    requires |t| > 0
    ensures RisesFromZero([p] + t) <==> (p == 0.0 && t[0] > 0.0) || RisesFromZero(t)
  {
    var s := [p] + t;
    if RisesFromZero(s) && !(p == 0.0 && t[0] > 0.0) {
      var k :| 0 <= k < |s| - 1 && s[k] == 0.0 && s[k + 1] > 0.0;
      assert k > 0;
      assert t[k - 1] == 0.0 && t[k] > 0.0;
    }
    if RisesFromZero(t) {
      var k :| 0 <= k < |t| - 1 && t[k] == 0.0 && t[k + 1] > 0.0;
      assert s[k + 1] == 0.0 && s[k + 2] > 0.0;
    }
    if p == 0.0 && t[0] > 0.0 {
      assert s[0] == 0.0 && s[1] > 0.0;
    }
  }

  /** A change of the syncMode parameter. While the listeners are attached,
      switching to free play, or to fade control while the total fade is
      positive, re-arms free play. */
  function SetSyncMode(m: Media, mode: SyncMode): (r: Media)
    ensures r.settings == m.settings.(syncMode := mode)
    ensures r.freePlayNeedsInit <==> (m.freePlayNeedsInit || (m.listening &&
      (mode == FreePlay || (mode == FadeControl && TotalFade(m.settings.fades) > 0.0))))
    ensures r == m.(settings := r.settings, freePlayNeedsInit := r.freePlayNeedsInit)
  {
    var rearm := m.listening && (mode == FreePlay || (mode == FadeControl && TotalFade(m.settings.fades) > 0.0));
    m.(settings := m.settings.(syncMode := mode), freePlayNeedsInit := m.freePlayNeedsInit || rearm)
  }

  /** Entering fade control re-arms free play exactly as the fade listener
      would for a fade that rises from zero to the current total: with the
      recorded total at zero, re-setting the fade track to its own value in
      fade-control mode raises the flag just when the mode change does. */
  lemma SyncModeMatchesFadeRule(m: Media)
    requires m.listening
    ensures var f := m.settings.fades;
      var n := m.(settings := m.settings.(syncMode := FadeControl), prevFade := 0.0);
      SetSyncMode(m, FadeControl).freePlayNeedsInit == SetFade(n, TrackFade, f.track).freePlayNeedsInit
  {
    var f := m.settings.fades;
    assert WithFade(f, TrackFade, f.track) == f;
  }

  /** A change of the border width; while the listeners are attached it
      marks the border for rebuilding. */
  function SetBorderWidth(m: Media, w: real): (r: Media)
    ensures r.settings == m.settings.(borderWidth := w)
    ensures r.borderDirty <==> m.borderDirty || m.listening
    ensures r == m.(settings := r.settings, borderDirty := r.borderDirty)
  {
    m.(settings := m.settings.(borderWidth := w), borderDirty := m.borderDirty || m.listening)
  }

  /** A change of renderBack, renderFront, size, anchor, alignHorz or
      alignVert; while the listeners are attached it marks the bounds for
      recomputing. The parameter values only feed the bounds computation,
      which is not modelled, so the change itself is not recorded. */
  function SetRenderParameter(m: Media): (r: Media)
    ensures r.boundsDirty <==> m.boundsDirty || m.listening
    ensures r == m.(boundsDirty := r.boundsDirty)
  {
    m.(boundsDirty := m.boundsDirty || m.listening)
  }

  /** setup_: after the subclass's setup the bounds are always marked for
      recomputing, whether or not the listeners are attached. */
  function Setup(m: Media): (r: Media)
    ensures r.boundsDirty && r == m.(boundsDirty := r.boundsDirty)
  {
    m.(boundsDirty := true)
  }

  // ---------------------------------------------------------------------
  // timeline tracks

  /** The three tracks a media may own. */
  datatype Role = SwitchesRole | FadeRole | LfoRole

  function RolePrefix(role: Role): (r: string)
    ensures '_' !in r
  {
    match role
    case SwitchesRole => "Media"
    case FadeRole => "Fade"
    case LfoRole => "LFO"
  }

  function RoleKind(role: Role): TL.TrackKind {
    if role == SwitchesRole then TL.SwitchesTrack else TL.CurvesTrack
  }

  /** "Media_<index>_<type>", "Fade_<index>_<type>", "LFO_<index>_<type>". */
  function TrackName(m: Media, role: Role): string {
    RolePrefix(role) + "_" + IntToString(m.index) + "_" + TypeName(m.mediaType)
  }

  /** "<page base name>_<page>". */
  function PageName(pageBase: string, page: int): string {
    pageBase + "_" + IntToString(page)
  }

  /** A track name splits at its two underscores into the role's prefix, the
      media's index in decimal and its type name. */
  lemma TrackNameParts(m: Media, role: Role)
    ensures var r, p, i, t := TrackName(m, role), RolePrefix(role), IntToString(m.index), TypeName(m.mediaType);
      && |r| == |p| + |i| + |t| + 2
      && r[..|p|] == p && r[|p|] == '_'
      && r[|p| + 1..|r| - |t| - 1] == i
      && r[|r| - |t| - 1] == '_' && r[|r| - |t|..] == t
  {
    var p, i, t := RolePrefix(role), IntToString(m.index), TypeName(m.mediaType);
    assert TrackName(m, role) == (p + "_" + i) + ("_" + t);
  }

  /** A page name is the base name, an underscore and the page number in
      decimal, which holds no further underscore. */
  lemma PageNameParts(pageBase: string, page: int)
    ensures var r := PageName(pageBase, page);
      && |r| == |pageBase| + 1 + |IntToString(page)|
      && r[..|pageBase|] == pageBase && r[|pageBase|] == '_'
      && r[|pageBase| + 1..] == IntToString(page) && '_' !in r[|pageBase| + 1..]
  {
    IntToStringHasNo(page, '_');
    assert PageName(pageBase, page) == (pageBase + "_") + IntToString(page);
  }

  /** Track names are distinct across roles, indices and media types. */
  lemma TrackNameInjective(a: Media, ra: Role, b: Media, rb: Role)
    requires TrackName(a, ra) == TrackName(b, rb)
    ensures ra == rb && a.index == b.index && a.mediaType == b.mediaType
  {
    IntToStringHasNo(a.index, '_');
    IntToStringHasNo(b.index, '_');
    SplitTwice(RolePrefix(ra), IntToString(a.index), TypeName(a.mediaType),
      RolePrefix(rb), IntToString(b.index), TypeName(b.mediaType), '_');
    IntToStringInjective(a.index, b.index);
    TypeNameInjective(a.mediaType, b.mediaType);
    RolePrefixInjective(ra, rb);
  }

  lemma RolePrefixInjective(a: Role, b: Role)
    requires RolePrefix(a) == RolePrefix(b)
    ensures a == b
  {
  }

  /** Pages for different page numbers have different names. */
  lemma PageNameInjective(pageBase: string, p: int, q: int)
    requires PageName(pageBase, p) == PageName(pageBase, q)
    ensures p == q
  {
    CancelPrefix(pageBase + "_", IntToString(p), IntToString(q));
    IntToStringInjective(p, q);
  }

  function Owned(m: Media, role: Role): Option<string> {
    match role
    case SwitchesRole => m.switchesTrack
    case FadeRole => m.curvesTrack
    case LfoRole => m.lfoTrack
  }

  function WithOwned(m: Media, role: Role, t: Option<string>): (r: Media)
    ensures Owned(r, role) == t
    ensures forall other :: other != role ==> Owned(r, other) == Owned(m, other)
    ensures r == m.(switchesTrack := r.switchesTrack, curvesTrack := r.curvesTrack, lfoTrack := r.lfoTrack)
  {
    match role
    case SwitchesRole => m.(switchesTrack := t)
    case FadeRole => m.(curvesTrack := t)
    case LfoRole => m.(lfoTrack := t)
  }

  datatype Registration = Registration(media: Media, timeline: Option<TL.Timeline>)

  /** The page a media's tracks go on, created when missing. */
  function EnsurePage(tl: TL.Timeline, name: string): (r: TL.Timeline)
    requires TL.Valid(tl)
    ensures TL.Valid(r) && TL.HasPage(r, name) && TL.TrackNames(r) == TL.TrackNames(tl)
    ensures TL.HasPage(tl, name) ==> r == tl
  {
    if TL.HasPage(tl, name) then tl else TL.AddPage(tl, name)
  }

  /** addSwitchesTrack, addCurvesTrack, addLFOTrack: without a timeline
      nothing happens; otherwise the media's page is created if missing and,
      unless that page already has the role's track, the page becomes
      current and the track is added to it and owned by the media. */
  function AddMediaTrack(m: Media, tl: Option<TL.Timeline>, pageBase: string, role: Role): (r: Registration)
    requires tl.Some? ==> TL.Valid(tl.value)
    ensures tl.None? ==> r == Registration(m, tl)
    ensures tl.Some? ==>
      var t := tl.value;
      var pn := PageName(pageBase, m.page);
      var name := TrackName(m, role);
      && r.timeline.Some? && TL.Valid(r.timeline.value)
      && TL.HasPage(r.timeline.value, pn)
      && var i := TL.FindPage(r.timeline.value.pages, pn).value;
      && name in r.timeline.value.pages[i].tracks
      && TL.TrackNames(r.timeline.value) == TL.TrackNames(t) + {name}
      && (r.media == m || r.media == WithOwned(m, role, Some(name)))
    ensures (tl.Some? && TL.HasPage(tl.value, PageName(pageBase, m.page)) &&
      TrackName(m, role) in tl.value.pages[TL.FindPage(tl.value.pages, PageName(pageBase, m.page)).value].tracks) ==>
      r == Registration(m, tl)
    ensures tl.Some? && TrackName(m, role) !in TL.TrackNames(tl.value) ==>
      r.media == WithOwned(m, role, Some(TrackName(m, role)))
  {
    match tl
    case None => Registration(m, None)
    case Some(t) =>
      var pn := PageName(pageBase, m.page);
      var name := TrackName(m, role);
      var t1 := EnsurePage(t, pn);
      var i := TL.FindPage(t1.pages, pn).value;
      if name in t1.pages[i].tracks then
        assert name in TL.TrackNames(t1);
        Registration(m, Some(t1))
      else
        var t2 := TL.SetCurrentPage(t1, i);
        TL.TrackNamesAfterAdd(t2, name, TL.NewTrack(RoleKind(role)));
        var t3 := TL.AddTrack(t2, name, TL.NewTrack(RoleKind(role)));
        assert TL.FindPage(t3.pages, pn) == Some(i) by {
          assert forall j :: 0 <= j < |t3.pages| ==> t3.pages[j].name == t1.pages[j].name;
        }
        Registration(WithOwned(m, role, Some(name)), Some(t3))
  }

  /** Adding the same track twice changes nothing the second time. */
  lemma AddMediaTrackIdempotent(m: Media, tl: Option<TL.Timeline>, pageBase: string, role: Role)
    requires tl.Some? ==> TL.Valid(tl.value)
    ensures var r := AddMediaTrack(m, tl, pageBase, role);
      AddMediaTrack(r.media, r.timeline, pageBase, role) == r
  {
    var r := AddMediaTrack(m, tl, pageBase, role);
    if tl.Some? {
      assert r.media.index == m.index && r.media.page == m.page && r.media.mediaType == m.mediaType;
      assert TrackName(r.media, role) == TrackName(m, role);
    }
  }

  /** removeSwitchesTrack, removeCurvesTrack, removeLFOTrack: with a timeline
      and an owned track, the track is removed and no longer owned. */
  function RemoveMediaTrack(m: Media, tl: Option<TL.Timeline>, role: Role): (r: Registration)
    requires tl.Some? ==> TL.Valid(tl.value)
    ensures tl.None? || Owned(m, role).None? ==> r == Registration(m, tl)
    ensures tl.Some? ==> r.timeline.Some? && TL.Valid(r.timeline.value) && Owned(r.media, role).None?
    ensures tl.Some? && Owned(m, role).Some? ==>
      r.media == WithOwned(m, role, None) &&
      TL.TrackNames(r.timeline.value) == TL.TrackNames(tl.value) - {Owned(m, role).value}
    ensures tl.Some? ==> TL.TrackNames(r.timeline.value) == TL.TrackNames(tl.value) - OptionSet(Owned(m, role))
  {
    match tl
    case None => Registration(m, None)
    case Some(t) =>
      match Owned(m, role)
      case None => Registration(m, tl)
      case Some(n) =>
        TL.TrackNamesAfterRemove(t, n);
        Registration(WithOwned(m, role, None), Some(TL.RemoveTrack(t, n)))
  }

  /** Adding a track the timeline did not have and removing it again leaves
      the timeline's track names and the media's tracks as they were. */
  lemma AddThenRemoveMediaTrack(m: Media, t: TL.Timeline, pageBase: string, role: Role)
    requires TL.Valid(t) && TrackName(m, role) !in TL.TrackNames(t)
    ensures var a := AddMediaTrack(m, Some(t), pageBase, role);
      var r := RemoveMediaTrack(a.media, a.timeline, role);
      r.media == WithOwned(m, role, None) && TL.TrackNames(r.timeline.value) == TL.TrackNames(t)
  {
  }

  /** The names of the tracks the media refers to. */
  function OwnedNames(m: Media): set<string> {
    OptionSet(m.switchesTrack) + OptionSet(m.curvesTrack) + OptionSet(m.lfoTrack)
  }

  function OptionSet(o: Option<string>): set<string> {
    if o.Some? then {o.value} else {}
  }

  /** Whether a media's settings call for the role's track. */
  predicate InUse(s: Settings, role: Role) {
    match role
    case SwitchesRole => true
    case FadeRole => s.useFadeTrack
    case LfoRole => s.useFadeLFO
  }

  /** A change of the useFadeTrack parameter. While the listeners are
      attached, enabling registers the fade track and disabling removes it
      from the timeline; otherwise only the parameter changes. */
  function SetUseFadeTrack(m: Media, tl: Option<TL.Timeline>, pageBase: string, enabled: bool): (r: Registration)
    requires tl.Some? ==> TL.Valid(tl.value)
    ensures r.media.settings == m.settings.(useFadeTrack := enabled)
    ensures r.media == m.(settings := r.media.settings, curvesTrack := r.media.curvesTrack)
    ensures tl.None? || !m.listening ==> r.timeline == tl && r.media.curvesTrack == m.curvesTrack
    ensures tl.Some? ==> r.timeline.Some? && TL.Valid(r.timeline.value)
    ensures tl.Some? && m.listening && enabled ==>
      TL.TrackNames(r.timeline.value) == TL.TrackNames(tl.value) + {TrackName(m, FadeRole)}
    ensures tl.Some? && m.listening && enabled && TrackName(m, FadeRole) !in TL.TrackNames(tl.value) ==>
      r.media.curvesTrack == Some(TrackName(m, FadeRole))
    ensures tl.Some? && m.listening && !enabled ==>
      (r.media.curvesTrack.None? && TL.TrackNames(r.timeline.value) == TL.TrackNames(tl.value) - OptionSet(m.curvesTrack))
  {
    var n := m.(settings := m.settings.(useFadeTrack := enabled));
    assert TrackName(n, FadeRole) == TrackName(m, FadeRole);
    if !m.listening then Registration(n, tl)
    else if enabled then AddMediaTrack(n, tl, pageBase, FadeRole)
    else RemoveMediaTrack(n, tl, FadeRole)
  }

  /** A change of the useFadeLFO parameter. While the listeners are
      attached, enabling registers the LFO track, disabling removes it from
      the timeline, and either way the LFO phase restarts at zero;
      otherwise only the parameter changes. */
  function SetUseFadeLFO(m: Media, tl: Option<TL.Timeline>, pageBase: string, enabled: bool): (r: Registration)
    requires tl.Some? ==> TL.Valid(tl.value)
    ensures r.media.settings == m.settings.(useFadeLFO := enabled)
    ensures r.media == m.(settings := r.media.settings, lfoTrack := r.media.lfoTrack, lfoVal := r.media.lfoVal)
    ensures !m.listening ==> r == Registration(m.(settings := r.media.settings), tl)
    ensures m.listening ==> r.media.lfoVal == 0.0
    ensures tl.None? ==> r.timeline == tl && r.media.lfoTrack == m.lfoTrack
    ensures tl.Some? ==> r.timeline.Some? && TL.Valid(r.timeline.value)
    ensures tl.Some? && m.listening && enabled ==>
      TL.TrackNames(r.timeline.value) == TL.TrackNames(tl.value) + {TrackName(m, LfoRole)}
    ensures tl.Some? && m.listening && enabled && TrackName(m, LfoRole) !in TL.TrackNames(tl.value) ==>
      r.media.lfoTrack == Some(TrackName(m, LfoRole))
    ensures tl.Some? && m.listening && !enabled ==>
      (r.media.lfoTrack.None? && TL.TrackNames(r.timeline.value) == TL.TrackNames(tl.value) - OptionSet(m.lfoTrack))
  {
    var n := m.(settings := m.settings.(useFadeLFO := enabled));
    assert TrackName(n, LfoRole) == TrackName(m, LfoRole);
    if !m.listening then Registration(n, tl)
    else if tl.None? then Registration(n.(lfoVal := 0.0), tl)
    else if enabled then
      AddMediaTrackKeeps(n, tl.value, pageBase, LfoRole);
      var r := AddMediaTrack(n, tl, pageBase, LfoRole);
      Registration(r.media.(lfoVal := 0.0), r.timeline)
    else
      var r := RemoveMediaTrack(n, tl, LfoRole);
      Registration(r.media.(lfoVal := 0.0), r.timeline)
  }

  /** init_: records index and page, registers the switches track, plus the
      fade and LFO tracks when they are in use, and attaches the parameter
      listeners. */
  function Init(m: Media, index: int, page: int, t: TL.Timeline, pageBase: string): (r: Registration)
    requires TL.Valid(t)
    ensures r.media.index == index && r.media.page == page && r.media.listening
    ensures r.timeline.Some? && TL.Valid(r.timeline.value)
    ensures TL.TrackNames(r.timeline.value) == TL.TrackNames(t) + InitNames(m, index, page)
  {
    var n := m.(index := index, page := page, listening := true);
    var a := AddIfUsed(Registration(n, Some(t)), pageBase, SwitchesRole);
    var b := AddIfUsed(a, pageBase, FadeRole);
    AddIfUsed(b, pageBase, LfoRole)
  }

  /** registers the role's track when the media's settings call for it. */
  function AddIfUsed(g: Registration, pageBase: string, role: Role): (r: Registration)
    requires g.timeline.Some? && TL.Valid(g.timeline.value)
    ensures r.timeline.Some? && TL.Valid(r.timeline.value)
    ensures TL.TrackNames(r.timeline.value) ==
      TL.TrackNames(g.timeline.value) + (if InUse(g.media.settings, role) then {TrackName(g.media, role)} else {})
    ensures r.media == g.media.(switchesTrack := r.media.switchesTrack, curvesTrack := r.media.curvesTrack,
      lfoTrack := r.media.lfoTrack)
    ensures forall other :: other != role ==> Owned(r.media, other) == Owned(g.media, other)
    ensures !InUse(g.media.settings, role) ==> r == g
    ensures InUse(g.media.settings, role) && TrackName(g.media, role) !in TL.TrackNames(g.timeline.value) ==>
      Owned(r.media, role) == Some(TrackName(g.media, role))
  {
    if InUse(g.media.settings, role) then
      AddMediaTrackKeeps(g.media, g.timeline.value, pageBase, role);
      AddMediaTrack(g.media, g.timeline, pageBase, role)
    else g
  }

  /** After init_, each track in use whose name was new to the timeline is
      owned by the media, and the tracks not in use are left as they were. */
  lemma InitOwns(m: Media, index: int, page: int, t: TL.Timeline, pageBase: string, role: Role)
    requires TL.Valid(t)
    ensures var r := Init(m, index, page, t, pageBase);
      && (InUse(m.settings, role) && TrackName(m.(index := index, page := page), role) !in TL.TrackNames(t) ==>
            Owned(r.media, role) == Some(TrackName(m.(index := index, page := page), role)))
      && (!InUse(m.settings, role) ==> Owned(r.media, role) == Owned(m, role))
  {
    var n := m.(index := index, page := page, listening := true);
    var a := AddIfUsed(Registration(n, Some(t)), pageBase, SwitchesRole);
    var b := AddIfUsed(a, pageBase, FadeRole);
    var c := AddIfUsed(b, pageBase, LfoRole);
    assert c == Init(m, index, page, t, pageBase);
    assert TrackName(m.(index := index, page := page), role) == TrackName(n, role);
    InitStepsOwn(n, t, a, b, c, pageBase, role);
  }

  /** The three registrations of init_, one role after the other. */
  lemma InitStepsOwn(n: Media, t: TL.Timeline, a: Registration, b: Registration, c: Registration,
                     pageBase: string, role: Role)
    requires TL.Valid(t)
    requires a == AddIfUsed(Registration(n, Some(t)), pageBase, SwitchesRole)
    requires b == AddIfUsed(a, pageBase, FadeRole)
    requires c == AddIfUsed(b, pageBase, LfoRole)
    ensures InUse(n.settings, role) && TrackName(n, role) !in TL.TrackNames(t) ==>
      Owned(c.media, role) == Some(TrackName(n, role))
    ensures !InUse(n.settings, role) ==> Owned(c.media, role) == Owned(n, role)
  {
    RoleNamesDistinct(n);
    var ns, nf, nl := TrackName(n, SwitchesRole), TrackName(n, FadeRole), TrackName(n, LfoRole);
    assert ns != nf && ns != nl && nf != nl;
    assert a.media.settings == n.settings && b.media.settings == n.settings;
    assert TrackName(a.media, FadeRole) == nf && TrackName(b.media, LfoRole) == nl;
    var ta, tb := TL.TrackNames(a.timeline.value), TL.TrackNames(b.timeline.value);
    assert ta <= TL.TrackNames(t) + {ns};
    assert tb <= ta + {nf};
  }

  /** The three roles of one media have three different track names. */
  lemma RoleNamesDistinct(m: Media)
    ensures forall ra, rb :: ra != rb ==> TrackName(m, ra) != TrackName(m, rb)
  {
    forall ra, rb | TrackName(m, ra) == TrackName(m, rb)
      ensures ra == rb
    {
      TrackNameInjective(m, ra, m, rb);
    }
  }

  /** What registering a track keeps: a valid timeline, everything of the
      media but the role's track, and the other roles' tracks; a name new to
      the timeline becomes the role's track. */
  lemma AddMediaTrackKeeps(m: Media, t: TL.Timeline, pageBase: string, role: Role)
    requires TL.Valid(t)
    ensures var r := AddMediaTrack(m, Some(t), pageBase, role);
      && r.timeline.Some? && TL.Valid(r.timeline.value)
      && TL.TrackNames(r.timeline.value) == TL.TrackNames(t) + {TrackName(m, role)}
      && r.media == m.(switchesTrack := r.media.switchesTrack, curvesTrack := r.media.curvesTrack,
           lfoTrack := r.media.lfoTrack)
      && (forall other :: other != role ==> Owned(r.media, other) == Owned(m, other))
      && (TrackName(m, role) !in TL.TrackNames(t) ==> Owned(r.media, role) == Some(TrackName(m, role)))
  {
  }

  /** clear_: the parameter listeners are detached, the three tracks are
      removed from the shared timeline, which lives on without them, and
      the media refers to no track any more. Afterwards the media holds no
      timeline, so its callers pass none. */
  function ClearTracks(m: Media, tl: Option<TL.Timeline>): (r: Registration)
    requires tl.Some? ==> TL.Valid(tl.value)
    ensures !r.media.listening
    ensures tl.None? ==> r == Registration(m.(listening := false), None)
    ensures tl.Some? ==> r.media == m.(switchesTrack := None, curvesTrack := None, lfoTrack := None, listening := false)
    ensures tl.Some? ==>
      (r.timeline.Some? && TL.Valid(r.timeline.value) &&
       TL.TrackNames(r.timeline.value) == TL.TrackNames(tl.value) - OwnedNames(m))
  {
    var n := m.(listening := false);
    match tl
    case None => Registration(n, None)
    case Some(t) =>
      var a := RemoveMediaTrack(n, tl, SwitchesRole);
      var b := RemoveMediaTrack(a.media, a.timeline, FadeRole);
      var c := RemoveMediaTrack(b.media, b.timeline, LfoRole);
      assert a.media == n.(switchesTrack := None);
      assert b.media == n.(switchesTrack := None, curvesTrack := None);
      RemovedInTurn(TL.TrackNames(t), OptionSet(m.switchesTrack), OptionSet(m.curvesTrack), OptionSet(m.lfoTrack),
        TL.TrackNames(a.timeline.value), TL.TrackNames(b.timeline.value), TL.TrackNames(c.timeline.value));
      c
  }

  lemma RemovedInTurn(t0: set<string>, x: set<string>, y: set<string>, z: set<string>,
                      t1: set<string>, t2: set<string>, t3: set<string>)
    requires t1 == t0 - x && t2 == t1 - y && t3 == t2 - z
    ensures t3 == t0 - (x + y + z)
  {
  }

  /** init_ on a fresh media whose track names are new to the timeline,
      then clear_, gives back the timeline's track names and leaves the
      media with no tracks and no listeners. */
  lemma InitThenClearRestores(m: Media, index: int, page: int, t: TL.Timeline, pageBase: string)
    requires TL.Valid(t) && OwnedNames(m) == {}
    requires forall role :: TrackName(m.(index := index, page := page), role) !in TL.TrackNames(t)
    ensures var a := Init(m, index, page, t, pageBase);
      var c := ClearTracks(a.media, a.timeline);
      && TL.TrackNames(c.timeline.value) == TL.TrackNames(t)
      && OwnedNames(c.media) == {} && !c.media.listening
  {
    var a := Init(m, index, page, t, pageBase);
    var used := InitNames(m, index, page);
    InitOwnedNames(m, index, page, t, pageBase);
    assert TL.TrackNames(t) !! used by {
      var n := m.(index := index, page := page);
      assert TrackName(n, SwitchesRole) !in TL.TrackNames(t);
      assert TrackName(n, FadeRole) !in TL.TrackNames(t);
      assert TrackName(n, LfoRole) !in TL.TrackNames(t);
    }
    var c := ClearTracks(a.media, a.timeline);
    SetRestored(TL.TrackNames(t), used, TL.TrackNames(a.timeline.value), TL.TrackNames(c.timeline.value));
  }

  /** The bounds listeners live from init_ to clear_: after init_ a render
      parameter change marks the bounds, after clear_ it leaves them as
      they were. */
  lemma BoundsListenersAttached(m: Media, index: int, page: int, t: TL.Timeline, pageBase: string)
    requires TL.Valid(t)
    ensures var a := Init(m, index, page, t, pageBase);
      var c := ClearTracks(a.media, a.timeline);
      && SetRenderParameter(a.media).boundsDirty
      && SetRenderParameter(c.media).boundsDirty == c.media.boundsDirty
  {
  }

  lemma SetRestored(before: set<string>, used: set<string>, during: set<string>, after: set<string>)
    requires before !! used && during == before + used && after == during - used
    ensures after == before
  {
  }

  /** The names of the tracks init_ registers. */
  function InitNames(m: Media, index: int, page: int): set<string> {
    var n := m.(index := index, page := page);
    {TrackName(n, SwitchesRole)}
      + (if m.settings.useFadeTrack then {TrackName(n, FadeRole)} else {})
      + (if m.settings.useFadeLFO then {TrackName(n, LfoRole)} else {})
  }

  /** A fresh media whose track names are new to the timeline owns, after
      init_, exactly the tracks init_ registered. */
  lemma InitOwnedNames(m: Media, index: int, page: int, t: TL.Timeline, pageBase: string)
    requires TL.Valid(t) && OwnedNames(m) == {}
    requires forall role :: TrackName(m.(index := index, page := page), role) !in TL.TrackNames(t)
    ensures OwnedNames(Init(m, index, page, t, pageBase).media) == InitNames(m, index, page)
  {
    var n := m.(index := index, page := page);
    var a := Init(m, index, page, t, pageBase).media;
    assert m.switchesTrack.None? && m.curvesTrack.None? && m.lfoTrack.None?;
    InitOwns(m, index, page, t, pageBase, SwitchesRole);
    InitOwns(m, index, page, t, pageBase, FadeRole);
    InitOwns(m, index, page, t, pageBase, LfoRole);
    var s, f, l := TrackName(n, SwitchesRole), TrackName(n, FadeRole), TrackName(n, LfoRole);
    assert s !in TL.TrackNames(t) && f !in TL.TrackNames(t) && l !in TL.TrackNames(t);
    OwnedNamesOf(a, s, f, l, m.settings.useFadeTrack, m.settings.useFadeLFO);
  }

  lemma OwnedNamesOf(a: Media, s: string, f: string, l: string, useFade: bool, useLfo: bool)
    requires a.switchesTrack == Some(s)
    requires a.curvesTrack == (if useFade then Some(f) else None)
    requires a.lfoTrack == (if useLfo then Some(l) else None)
    ensures OwnedNames(a) == {s} + (if useFade then {f} else {}) + (if useLfo then {l} else {})
  {
  }

  // ---------------------------------------------------------------------
  // addDefaultSwitch

  datatype SwitchResult = SwitchResult(ok: bool, timeline: Option<TL.Timeline>)

  /** The owned switches track is live on the timeline. */
  predicate SwitchesLive(m: Media, t: TL.Timeline) {
    m.switchesTrack.Some? ==> TL.FindTrack(t.pages, m.switchesTrack.value).Some?
  }

  /** addDefaultSwitch: false without a timeline, without a switches track or
      when the track already has a switch; otherwise a switch is added at the
      current time (`added` says whether the timeline accepted it) and the
      result reports that. */
  function AddDefaultSwitch(m: Media, tl: Option<TL.Timeline>, added: bool): (r: SwitchResult)
    requires tl.Some? ==> TL.Valid(tl.value) && SwitchesLive(m, tl.value)
    ensures tl.None? || m.switchesTrack.None? ==> !r.ok && r.timeline == tl
    ensures r.ok ==> (tl.Some? && m.switchesTrack.Some? && added &&
      TL.FindTrack(tl.value.pages, m.switchesTrack.value).value.keyframes == 0)
    ensures (tl.Some? && m.switchesTrack.Some? && added &&
      TL.FindTrack(tl.value.pages, m.switchesTrack.value).value.keyframes == 0) ==> r.ok
    ensures r.ok ==> (r.timeline.Some? && m.switchesTrack.Some? &&
      TL.FindTrack(r.timeline.value.pages, m.switchesTrack.value) ==
        Some(TL.FindTrack(tl.value.pages, m.switchesTrack.value).value.(keyframes := 1)))
    ensures !r.ok ==> r.timeline == tl
    ensures r.timeline.Some? ==> TL.Valid(r.timeline.value) && SwitchesLive(m, r.timeline.value)
  {
    match tl
    case None => SwitchResult(false, None)
    case Some(t) =>
      match m.switchesTrack
      case None => SwitchResult(false, tl)
      case Some(n) =>
        if TL.FindTrack(t.pages, n).value.keyframes > 0 || !added then SwitchResult(false, tl)
        else
          TL.FindTrackAfterKeyframe(t, n);
          SwitchResult(true, Some(TL.AddKeyframe(t, n)))
  }

  /** A media gets at most one default switch: a second call fails. */
  lemma DefaultSwitchOnce(m: Media, t: TL.Timeline, added: bool, again: bool)
    requires TL.Valid(t) && SwitchesLive(m, t)
    ensures var r := AddDefaultSwitch(m, Some(t), added);
      r.ok ==> !AddDefaultSwitch(m, r.timeline, again).ok
  {
  }

  // ---------------------------------------------------------------------
  // updateBorder

  /** The strip's vertices: outer and inner corner alternately, going round
      the rectangle from its minimum corner. */
  const BorderVertices: seq<BorderVertex> := [
    BorderVertex(Outer, MinMin), BorderVertex(Inner, MinMin),
    BorderVertex(Outer, MaxMin), BorderVertex(Inner, MaxMin),
    BorderVertex(Outer, MaxMax), BorderVertex(Inner, MaxMax),
    BorderVertex(Outer, MinMax), BorderVertex(Inner, MinMax)]

  /** The strip goes round once and closes on its first two vertices. */
  const BorderIndices: seq<nat> := [0, 1, 2, 3, 4, 5, 6, 7, 0, 1]

  /** The next corner going round the rectangle from its minimum corner. */
  function NextCorner(c: Corner): Corner {
    match c
    case MinMin => MaxMin
    case MaxMin => MaxMax
    case MaxMax => MinMax
    case MinMax => MinMin
  }

  /** The vertex at position k of the strip. */
  function StripVertex(mesh: Mesh<BorderVertex>, k: int): BorderVertex
    requires IndicesInRange(mesh) && 0 <= k < |mesh.indices|
  {
    mesh.vertices[mesh.indices[k]]
  }

  /** A border strip that goes round: consecutive strip vertices alternate
      between the outer and the inner rectangle (so every triangle spans the
      border band), each outer corner is followed by the inner corner at the
      same place, two positions on the strip reach the next corner of the
      same rectangle, the strip ends on the two vertices it started with,
      and it passes through every corner of both rectangles. */
  predicate ClosedStrip(mesh: Mesh<BorderVertex>) {
    && mesh.mode == TriangleStrip
    && |mesh.indices| >= 2 && IndicesInRange(mesh)
    && mesh.indices[|mesh.indices| - 2..] == mesh.indices[..2]
    && (forall k :: 0 <= k < |mesh.indices| - 1 ==>
          StripVertex(mesh, k).ring != StripVertex(mesh, k + 1).ring)
    && (forall k :: 0 <= k < |mesh.indices| - 1 && StripVertex(mesh, k).ring == Outer ==>
          StripVertex(mesh, k + 1).corner == StripVertex(mesh, k).corner)
    && (forall k :: 0 <= k < |mesh.indices| - 2 ==>
          StripVertex(mesh, k + 2) == BorderVertex(StripVertex(mesh, k).ring, NextCorner(StripVertex(mesh, k).corner)))
    && (forall c: Corner, g: Ring :: exists k :: 0 <= k < |mesh.indices| && StripVertex(mesh, k) == BorderVertex(g, c))
  }

  /** The border mesh updateBorder builds. */
  const BorderStrip: Mesh<BorderVertex> := Mesh(TriangleStrip, BorderVertices, [], [], [], BorderIndices)

  lemma BorderStripClosed()
    ensures ClosedStrip(BorderStrip)
  {
    BorderStripInRange();
    assert BorderStrip.mode == TriangleStrip && |BorderStrip.indices| == 10;
    assert BorderStrip.indices[8..] == BorderStrip.indices[..2];
    BorderStripVertices();
  }

  lemma BorderStripInRange()
    ensures IndicesInRange(BorderStrip)
  {
  }

  /** The strip's vertices in order: round the rectangle once, outer and
      inner alternately, and back to the first two. */
  lemma BorderStripVertices()
    ensures IndicesInRange(BorderStrip)
    ensures forall k :: 0 <= k < |BorderStrip.indices| - 1 ==>
      StripVertex(BorderStrip, k).ring != StripVertex(BorderStrip, k + 1).ring
    ensures forall k :: 0 <= k < |BorderStrip.indices| - 1 && StripVertex(BorderStrip, k).ring == Outer ==>
      StripVertex(BorderStrip, k + 1).corner == StripVertex(BorderStrip, k).corner
    ensures forall k :: 0 <= k < |BorderStrip.indices| - 2 ==>
      StripVertex(BorderStrip, k + 2) ==
        BorderVertex(StripVertex(BorderStrip, k).ring, NextCorner(StripVertex(BorderStrip, k).corner))
    ensures forall c: Corner, g: Ring :: exists k :: 0 <= k < |BorderStrip.indices| && StripVertex(BorderStrip, k) == BorderVertex(g, c)
  {
    BorderStripAlternates();
    BorderStripPairs();
    BorderStripSteps();
    BorderStripCovers();
  }

  lemma BorderStripAlternates()
    ensures IndicesInRange(BorderStrip)
    ensures forall k :: 0 <= k < |BorderStrip.indices| - 1 ==>
      StripVertex(BorderStrip, k).ring != StripVertex(BorderStrip, k + 1).ring
  {
    BorderStripOrder();
  }

  lemma BorderStripPairs()
    ensures IndicesInRange(BorderStrip)
    ensures forall k :: 0 <= k < |BorderStrip.indices| - 1 && StripVertex(BorderStrip, k).ring == Outer ==>
      StripVertex(BorderStrip, k + 1).corner == StripVertex(BorderStrip, k).corner
  {
    BorderStripOrder();
  }

  lemma BorderStripSteps()
    ensures IndicesInRange(BorderStrip)
    ensures forall k :: 0 <= k < |BorderStrip.indices| - 2 ==>
      StripVertex(BorderStrip, k + 2) ==
        BorderVertex(StripVertex(BorderStrip, k).ring, NextCorner(StripVertex(BorderStrip, k).corner))
  {
    BorderStripOrder();
  }

  /** The strip passes through every corner of both rectangles. */
  lemma BorderStripCovers()
    ensures IndicesInRange(BorderStrip)
    ensures forall c: Corner, g: Ring :: exists k :: 0 <= k < |BorderIndices| && StripVertex(BorderStrip, k) == BorderVertex(g, c)
  {
    BorderStripOrder();
    forall c: Corner, g: Ring
      ensures exists k :: 0 <= k < |BorderIndices| && StripVertex(BorderStrip, k) == BorderVertex(g, c)
    {
      var i := (match c case MinMin => 0 case MaxMin => 2 case MaxMax => 4 case MinMax => 6) + (if g == Inner then 1 else 0);
      assert StripOrder()[i] == BorderVertex(g, c);
      assert StripVertex(BorderStrip, i) == BorderVertex(g, c);
    }
  }

  /** Position k of the strip holds the k-th vertex of StripOrder. */
  lemma BorderStripOrder()
    ensures IndicesInRange(BorderStrip)
    ensures forall k :: 0 <= k < |BorderIndices| ==> StripVertex(BorderStrip, k) == StripOrder()[k]
  {
    BorderStripInRange();
    var o := StripOrder();
    forall k | 0 <= k < |BorderIndices|
      ensures StripVertex(BorderStrip, k) == o[k]
    {
      if k < 8 {
        assert BorderIndices[k] == k;
      } else {
        assert BorderIndices[k] == k - 8;
      }
    }
  }

  /** The ten strip vertices written out. */
  function StripOrder(): (o: seq<BorderVertex>)
    ensures |o| == 10
    ensures forall k :: 0 <= k < 9 ==> o[k].ring != o[k + 1].ring
    ensures forall k :: 0 <= k < 9 && o[k].ring == Outer ==> o[k + 1].corner == o[k].corner
    ensures forall k :: 0 <= k < 8 ==> o[k + 2] == BorderVertex(o[k].ring, NextCorner(o[k].corner))
  {
    BorderVertices + BorderVertices[..2]
  }

  /** updateBorder: the border mesh is cleared; a positive border width
      rebuilds it as a closed triangle strip of eight vertices; the border is
      clean afterwards and nothing else changes. */
  function UpdateBorder(m: Media): (r: Media)
    ensures !r.borderDirty && r == m.(border := r.border, borderDirty := false)
    ensures m.settings.borderWidth > 0.0 ==>
      |r.border.vertices| == 8 && r.border.indices == [0, 1, 2, 3, 4, 5, 6, 7, 0, 1] && ClosedStrip(r.border)
    ensures m.settings.borderWidth <= 0.0 ==>
      r.border.mode == m.border.mode && |r.border.vertices| == 0 && |r.border.indices| == 0
    ensures |r.border.colors| == 0
  {
    BorderStripClosed();
    var cleared := Clear(m.border);
    var mesh := if m.settings.borderWidth > 0.0 then BorderStrip else cleared;
    m.(border := mesh, borderDirty := false)
  }
}
