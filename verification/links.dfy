/** Linked media as Base holds them: `linkedMedia` is a shared reference, so
    several media may link to the same one, a flag raised on it is seen by
    every holder, and links may close into a cycle. A pool of media stands
    for the shared objects and a link is a position in the pool. */
module Linking {
  import opened Common
  import opened Media

  /** A media object and the position of the media it links to. The
      media's own `linked` field plays no part here. */
  datatype Node = Node(media: Media, link: Option<nat>)

  /** Every link names a media of the pool. */
  predicate LinksInRange(pool: seq<Node>) {
    forall i :: 0 <= i < |pool| && pool[i].link.Some? ==> pool[i].link.value < |pool|
  }

  /** shouldPlay passes every guard and reaches the linked-media branch. */
  predicate Defers(m: Media) {
    m.loaded && m.switchMillis >= 0.0 && m.durationMs > 0.0 && m.settings.syncMode == LinkedMedia
  }

  /** The decision and the pool after it. */
  datatype Outcome = Outcome(play: bool, pool: seq<Node>)

  /** The pool with only the free-play flags possibly raised. */
  predicate OnlyFlags(before: seq<Node>, after: seq<Node>) {
    && |after| == |before|
    && (forall j :: 0 <= j < |before| ==>
          after[j] == before[j].(media := before[j].media.(freePlayNeedsInit := after[j].media.freePlayNeedsInit)))
    && (forall j :: 0 <= j < |before| ==> before[j].media.freePlayNeedsInit ==> after[j].media.freePlayNeedsInit)
  }

  /** The decision of a media that does not defer. A flag it raises is
      written to the shared object, where every holder sees it. */
  function Local(pool: seq<Node>, i: nat, env: PlayEnv): (r: Outcome)
    requires i < |pool| && !Defers(pool[i].media)
    ensures r.play ==> pool[i].media.loaded && pool[i].media.switchMillis >= 0.0 && pool[i].media.durationMs > 0.0
    ensures r.play ==> pool[i].media.settings.syncMode != LinkedMedia
    ensures OnlyFlags(pool, r.pool)
    ensures forall j :: 0 <= j < |pool| && j != i ==> r.pool[j] == pool[j]
    ensures pool[i].media.loaded && pool[i].media.switchMillis < 0.0 ==> r.pool[i].media.freePlayNeedsInit
  {
    var m := pool[i].media;
    var d := ShouldPlay(m, env);
    Outcome(d.play, pool[i := pool[i].(media := d.media)])
  }

  /** Base::shouldPlay as written, with the chain of links followed for at
      most `fuel` steps: None means the recursion has not returned yet. */
  function ShouldPlayAsWritten(pool: seq<Node>, i: nat, env: PlayEnv, fuel: nat): (r: Option<Outcome>)
    requires LinksInRange(pool) && i < |pool|
    ensures r.Some? ==> OnlyFlags(pool, r.value.pool)
    ensures r.None? ==> Defers(pool[i].media) && pool[i].link.Some?
    decreases fuel
  {
    if !Defers(pool[i].media) then Some(Local(pool, i, env))
    else
      match pool[i].link
      case None => Some(Outcome(false, pool))
      case Some(j) => if fuel == 0 then None else ShouldPlayAsWritten(pool, j, env, fuel - 1)
  }

  /** A pool in which every media defers to another never gets an answer:
      however far the recursion is followed, it has not returned. A media
      linked to itself, or two media linked to each other, each loaded,
      with an active switch and a positive duration and in linked mode, is
      such a pool. */
  lemma {:induction false} CycleNeverDecides(pool: seq<Node>, i: nat, env: PlayEnv, fuel: nat)
    requires LinksInRange(pool) && i < |pool|
    requires forall j :: 0 <= j < |pool| ==> Defers(pool[j].media) && pool[j].link.Some?
    ensures ShouldPlayAsWritten(pool, i, env, fuel).None?
    decreases fuel
  {
    if fuel > 0 {
      CycleNeverDecides(pool, pool[i].link.value, env, fuel - 1);
    }
  }

  /** The smallest such pool: one media linked to itself. */
  lemma SelfLinkNeverDecides(m: Media, env: PlayEnv, fuel: nat)
    requires Defers(m)
    ensures ShouldPlayAsWritten([Node(m, Some(0))], 0, env, fuel).None?
  {
    CycleNeverDecides([Node(m, Some(0))], 0, env, fuel);
  }

  /** shouldPlay with the chain cut after `hops` links: a chain that has
      followed more links than there are media has come back to one it
      passed, and a cycle gives no playback. */
  function ShouldPlayGuarded(pool: seq<Node>, i: nat, env: PlayEnv, hops: nat): (r: Outcome)
    requires LinksInRange(pool) && i < |pool|
    ensures OnlyFlags(pool, r.pool)
    ensures r.play ==> pool[i].media.loaded && pool[i].media.switchMillis >= 0.0 && pool[i].media.durationMs > 0.0
    ensures r.play && Defers(pool[i].media) ==> pool[i].link.Some? && hops > 0
    decreases hops
  {
    if !Defers(pool[i].media) then Local(pool, i, env)
    else
      match pool[i].link
      case None => Outcome(false, pool)
      case Some(j) => if hops == 0 then Outcome(false, pool) else ShouldPlayGuarded(pool, j, env, hops - 1)
  }

  /** The corrected shouldPlay: at most as many links as there are media. */
  function ShouldPlayLinked(pool: seq<Node>, i: nat, env: PlayEnv): (r: Outcome)
    requires LinksInRange(pool) && i < |pool|
    ensures OnlyFlags(pool, r.pool)
  {
    ShouldPlayGuarded(pool, i, env, |pool|)
  }

  /** Wherever the recursion as written returns within `hops` links, the
      guarded decision is the same decision with the same effects. */
  lemma {:induction false} GuardedAgrees(pool: seq<Node>, i: nat, env: PlayEnv, fuel: nat, hops: nat)
    requires LinksInRange(pool) && i < |pool| && fuel <= hops
    requires ShouldPlayAsWritten(pool, i, env, fuel).Some?
    ensures ShouldPlayGuarded(pool, i, env, hops) == ShouldPlayAsWritten(pool, i, env, fuel).value
    decreases fuel
  {
    if Defers(pool[i].media) && pool[i].link.Some? {
      GuardedAgrees(pool, pool[i].link.value, env, fuel - 1, hops - 1);
    }
  }

  /** On a cycle the guarded decision is "do not play" and nothing changes. */
  lemma {:induction false} GuardedCycleDoesNotPlay(pool: seq<Node>, i: nat, env: PlayEnv, hops: nat)
    requires LinksInRange(pool) && i < |pool|
    requires forall j :: 0 <= j < |pool| ==> Defers(pool[j].media) && pool[j].link.Some?
    ensures ShouldPlayGuarded(pool, i, env, hops) == Outcome(false, pool)
    decreases hops
  {
    if hops > 0 {
      GuardedCycleDoesNotPlay(pool, pool[i].link.value, env, hops - 1);
    }
  }

  /** Links that always point further along the pool cannot close a cycle. */
  predicate ForwardLinks(pool: seq<Node>) {
    forall i :: 0 <= i < |pool| && pool[i].link.Some? ==> i < pool[i].link.value < |pool|
  }

  /** Without cycles the recursion as written returns within the pool's
      size, so the corrected decision is the original one there. */
  lemma {:induction false} ForwardLinksDecide(pool: seq<Node>, i: nat, env: PlayEnv, fuel: nat)
    requires ForwardLinks(pool) && i < |pool| && |pool| - 1 - i <= fuel
    ensures LinksInRange(pool)
    ensures ShouldPlayAsWritten(pool, i, env, fuel).Some?
    ensures ShouldPlayLinked(pool, i, env) == ShouldPlayAsWritten(pool, i, env, fuel).value
    decreases |pool| - i
  {
    if Defers(pool[i].media) && pool[i].link.Some? {
      ForwardLinksDecide(pool, pool[i].link.value, env, fuel - 1);
      ForwardLinksDecide(pool, pool[i].link.value, env, |pool| - 2 - i);
    }
    AsWrittenSettles(pool, i, env, |pool| - 1 - i, fuel);
    GuardedAgrees(pool, i, env, |pool| - 1 - i, |pool|);
  }

  /** Once the recursion as written has returned, more fuel changes nothing. */
  lemma {:induction false} AsWrittenSettles(pool: seq<Node>, i: nat, env: PlayEnv, fuel: nat, more: nat)
    requires LinksInRange(pool) && i < |pool| && fuel <= more
    requires ShouldPlayAsWritten(pool, i, env, fuel).Some?
    ensures ShouldPlayAsWritten(pool, i, env, more) == ShouldPlayAsWritten(pool, i, env, fuel)
    decreases fuel
  {
    if Defers(pool[i].media) && pool[i].link.Some? {
      AsWrittenSettles(pool, pool[i].link.value, env, fuel - 1, more - 1);
    }
  }
}
