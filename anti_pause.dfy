/** The YouTube anti-pause script, version 3.0: while a short protection
    window is open after a bare "i" key press, a pause of the video that was
    playing at the key press is answered by a request to play it again; a
    separate flag resumes the next video of a playlist after one ended.

    The page is abstracted: video elements are values with an identity, a
    bounding rectangle, `paused` and `readyState`; the clock is an integer
    millisecond reading passed to every handler; the effects a handler has on
    the page (a native pause, a play request) are returned as a list. */
module AntiPause {
  import opened JsText
  import opened Options

  /** How long after the key press pauses are neutralised. */
  const WindowMs := 1500
  /** How far a neutralised pause stretches the window past the current time. */
  const BurstMs := 250
  /** How long the auto-play flag stays set after a video ended. */
  const AutoPlayExpiryMs := 5000

  const VisibleBonus := 1000000
  const PlayingBonus := 500000
  const ReadyBonus := 200000

  type VideoId = nat

  /** A DOMRect as given by `getBoundingClientRect`, in whole pixels: an origin
      and a size that may be negative. */
  datatype Rect = Rect(x: int, y: int, width: int, height: int) {
    function Left(): int { if width < 0 then x + width else x }
    function Right(): int { if width < 0 then x else x + width }
    function Top(): int { if height < 0 then y + height else y }
    function Bottom(): int { if height < 0 then y else y + height }
  }

  /** A video element at the moment a handler looks at it. */
  datatype Video = Video(id: VideoId, rect: Rect, paused: bool, readyState: nat)

  /** What `getRootNode()` of a key event's target leads to. */
  datatype RootNode = NoHost | ShadowHost(hostIsContentEditable: bool)

  /** The target of a key event; a missing `tagName` is the empty string. */
  datatype Target = Target(tagName: string, isContentEditable: bool, root: RootNode)

  /** A keydown event; `key` is None when it is not a string. */
  datatype KeyEvent = KeyEvent(key: Option<string>, altKey: bool, ctrlKey: bool,
                               metaKey: bool, shiftKey: bool, target: Option<Target>)

  /** What a handler does to the page. `Play` stands for the immediate play
      attempt together with the burst of retries that follows it. */
  datatype Effect = NativePause(el: VideoId) | Play(el: VideoId)

  // ---- Pure helpers ----

  function Max(a: int, b: int): int { if a < b then b else a }

  function Area(r: Rect): nat {
    Max(0, r.width) * Max(0, r.height)
  }

  /** Visible: a positive area that intersects the viewport `vw` x `vh`. */
  predicate Visible(r: Rect, vw: int, vh: int) {
    Area(r) > 0 && r.Bottom() > 0 && r.Right() > 0 && r.Left() < vw && r.Top() < vh
  }

  function Score(v: Video, vw: int, vh: int): int {
    Area(v.rect)
      + (if Visible(v.rect, vw, vh) then VisibleBonus else 0)
      + (if !v.paused then PlayingBonus else 0)
      + (if v.readyState >= 2 then ReadyBonus else 0)
  }

  /** The index that heads the videos once they are sorted by descending score
      with a stable sort: the first video of maximal score. */
  function MainIndex(vids: seq<Video>, vw: int, vh: int): (k: nat)
    requires |vids| > 0
    ensures k < |vids|
    ensures forall j | 0 <= j < |vids| :: Score(vids[j], vw, vh) <= Score(vids[k], vw, vh)
    ensures forall j | 0 <= j < k :: Score(vids[j], vw, vh) < Score(vids[k], vw, vh)
  {
    if |vids| == 1 then 0
    else
      var k := MainIndex(vids[..|vids| - 1], vw, vh);
      if Score(vids[|vids| - 1], vw, vh) > Score(vids[k], vw, vh) then |vids| - 1 else k
  }

  /** `pickMainVideo`: no video when the page has none, otherwise the first
      video of maximal score. */
  function PickMainVideo(vids: seq<Video>, vw: int, vh: int): (r: Option<Video>)
    ensures r.None? <==> vids == []
    ensures r.Some? ==> r.value in vids
    ensures r.Some? ==> forall v | v in vids :: Score(v, vw, vh) <= Score(r.value, vw, vh)
    ensures r.Some? ==> r.value == vids[MainIndex(vids, vw, vh)]
  {
    if vids == [] then None else Some(vids[MainIndex(vids, vw, vh)])
  }

  /** Only the first of two videos that tie on score can be picked. */
  lemma TieGoesToEarlier(vids: seq<Video>, vw: int, vh: int, i: nat, j: nat)
    requires i < j < |vids|
    requires Score(vids[i], vw, vh) == Score(vids[j], vw, vh)
    ensures MainIndex(vids, vw, vh) != j
  {
  }

  /** A visible, playing video that can play beats every paused video of no
      larger area, whether or not that one is visible or ready. */
  lemma PlayingReadyBeatsPaused(a: Video, b: Video, vw: int, vh: int)
    requires !a.paused && a.readyState >= 2 && Visible(a.rect, vw, vh)
    requires b.paused && Area(b.rect) <= Area(a.rect)
    ensures Score(b, vw, vh) < Score(a, vw, vh)
  {
  }

  /** `isEditable`: a focused input, textarea, select or content-editable
      element, directly or through the host of its shadow root. */
  predicate IsEditable(t: Option<Target>) {
    if t.None? then false
    else
      var tag := LowerString(t.value.tagName);
      t.value.isContentEditable
      || tag == "input" || tag == "textarea" || tag == "select"
      || t.value.root == ShadowHost(true)
  }

  /** The tag name is compared without regard to case. */
  lemma IsEditableTagCase(t: Target, u: Target)
    requires LowerString(t.tagName) == LowerString(u.tagName)
    requires t.isContentEditable == u.isContentEditable && t.root == u.root
    ensures IsEditable(Some(t)) == IsEditable(Some(u))
  {
  }

  /** A target is editable exactly when it is content-editable, its shadow
      root's host is, or its tag name spells `input`, `textarea` or `select`
      in any mix of upper and lower case. */
  lemma IsEditableExactly(t: Target)
    ensures IsEditable(Some(t)) <==>
              || t.isContentEditable || t.root == ShadowHost(true)
              || CaseFoldsTo(t.tagName, "input") || CaseFoldsTo(t.tagName, "textarea")
              || CaseFoldsTo(t.tagName, "select")
  {
    LowerIsWord(t.tagName, "input");
    LowerIsWord(t.tagName, "textarea");
    LowerIsWord(t.tagName, "select");
  }

  /** `isBareIKey`: the key is the letter i in either case and no modifier is
      held. A shifted "I" is therefore not a bare i. */
  function IsBareIKey(e: KeyEvent): (r: bool)
    ensures r <==> (e.key == Some("i") || e.key == Some("I"))
                   && !e.altKey && !e.ctrlKey && !e.metaKey && !e.shiftKey
  {
    && e.key.Some?
    && (LowerIsI(e.key.value); LowerString(e.key.value) == "i")
    && !e.altKey && !e.ctrlKey && !e.metaKey && !e.shiftKey
  }

  // ---- The state of the script and its transitions ----

  /** The module-level variables of the script. `autoPlayExpiry` is the
      firing time of the pending auto-play timeout, None when none is pending. */
  datatype GuardState = GuardState(windowUntil: int, tracked: Option<VideoId>,
                                   lastWasPlaying: bool, shouldAutoPlay: bool,
                                   autoPlayExpiry: Option<int>)

  const Initial := GuardState(0, None, false, false, None)

  /** `inProtectionWindowFor` */
  predicate Protected(s: GuardState, el: Option<VideoId>, now: int) {
    el.Some? && el == s.tracked && s.lastWasPlaying && now <= s.windowUntil
  }

  /** Everything the script reacts to. A target of None is an event target
      that is not a media element. `PauseCall` is a call of the patched
      `pause()` on `el`; it reads the clock once before the native pause
      (`now` of the event) and once after it (`later`). `Cleanup` is the
      mutation observer or the `yt-navigate-finish` listener calling
      `clearIfGone`, with the ids of the videos still in the document. */
  datatype Event =
    | KeyDown(key: KeyEvent, videos: seq<Video>, viewWidth: int, viewHeight: int)
    | PauseCall(el: VideoId, later: int)
    | PauseEvent(target: Option<Video>)
    | Ended(target: Option<Video>)
    | CanPlay(target: Option<Video>)
    | Playing(target: Option<Video>)
    | AutoPlayTimeout
    | Cleanup(connected: set<VideoId>)

  datatype Timed = Timed(now: int, ev: Event)

  datatype Outcome = Outcome(state: GuardState, effects: seq<Effect>)

  /** The key press snapshots the main video when it is a bare i outside an
      editable element and some video exists. */
  predicate Snapshots(e: KeyEvent, vids: seq<Video>) {
    IsBareIKey(e) && !IsEditable(e.target) && vids != []
  }

  function OnKeyDown(s: GuardState, now: int, e: KeyEvent, vids: seq<Video>, vw: int, vh: int): GuardState
  {
    if !Snapshots(e, vids) then s
    else
      var v := PickMainVideo(vids, vw, vh).value;
      s.(tracked := Some(v.id), lastWasPlaying := !v.paused, windowUntil := now + WindowMs)
  }

  function OnPauseCall(s: GuardState, now: int, el: VideoId, later: int): Outcome
  {
    if Protected(s, Some(el), now) then
      Outcome(s.(windowUntil := Max(s.windowUntil, later + BurstMs)), [NativePause(el), Play(el)])
    else
      Outcome(s, [NativePause(el)])
  }

  function ClearedIfGone(s: GuardState, connected: set<VideoId>): GuardState
  {
    if s.tracked.Some? && s.tracked.value !in connected then
      s.(tracked := None, lastWasPlaying := false, windowUntil := 0)
    else s
  }

  /** One handler run. */
  function Step(s: GuardState, t: Timed): Outcome
  {
    match t.ev
    case KeyDown(e, vids, vw, vh) => Outcome(OnKeyDown(s, t.now, e, vids, vw, vh), [])
    case PauseCall(el, later) => OnPauseCall(s, t.now, el, later)
    case PauseEvent(target) =>
      if target.Some? && Protected(s, Some(target.value.id), t.now)
      then Outcome(s, [Play(target.value.id)]) else Outcome(s, [])
    case Ended(target) =>
      if target.Some? then Outcome(s.(shouldAutoPlay := true, autoPlayExpiry := Some(t.now + AutoPlayExpiryMs)), [])
      else Outcome(s, [])
    case CanPlay(target) =>
      if target.Some? && s.shouldAutoPlay && target.value.paused
      then Outcome(s, [Play(target.value.id)]) else Outcome(s, [])
    case Playing(target) =>
      if target.Some? && s.shouldAutoPlay && !target.value.paused
      then Outcome(s.(shouldAutoPlay := false, autoPlayExpiry := None), []) else Outcome(s, [])
    case AutoPlayTimeout =>
      if s.autoPlayExpiry.Some? && s.autoPlayExpiry.value <= t.now
      then Outcome(s.(shouldAutoPlay := false, autoPlayExpiry := None), []) else Outcome(s, [])
    case Cleanup(connected) => Outcome(ClearedIfGone(s, connected), [])
  }

  /** A handler calls the native pause exactly for a `pause()` call on that
      element. It requests play exactly for a protected element that the
      call or the `pause` event is about, or for the paused target of a
      `canplay` event while auto-play is due. */
  lemma StepEffects(s: GuardState, t: Timed)
    ensures forall el :: NativePause(el) in Step(s, t).effects <==> t.ev.PauseCall? && t.ev.el == el
    ensures forall el :: Play(el) in Step(s, t).effects <==>
              || (t.ev.PauseCall? && t.ev.el == el && Protected(s, Some(el), t.now))
              || (t.ev.PauseEvent? && t.ev.target.Some? && t.ev.target.value.id == el
                  && Protected(s, Some(el), t.now))
              || (t.ev.CanPlay? && t.ev.target.Some? && t.ev.target.value.id == el
                  && t.ev.target.value.paused && s.shouldAutoPlay)
  {
  }

  /** The state after handling every event of `tr` in order. */
  function Run(s: GuardState, tr: seq<Timed>): GuardState
  {
    if tr == [] then s else Step(Run(s, tr[..|tr| - 1]), tr[|tr| - 1]).state
  }

  /** The state after the first `i` handler runs of `tr`. */
  function StateAt(s: GuardState, tr: seq<Timed>, i: nat): GuardState
    requires i <= |tr|
  {
    Run(s, tr[..i])
  }

  lemma StateAtPrefix(s: GuardState, tr: seq<Timed>, n: nat, i: nat)
    requires i <= n <= |tr|
    ensures StateAt(s, tr[..n], i) == StateAt(s, tr, i)
  {
    assert tr[..n][..i] == tr[..i];
  }

  lemma StateAtNext(s: GuardState, tr: seq<Timed>, i: nat)
    requires i < |tr|
    ensures StateAt(s, tr, i + 1) == Step(StateAt(s, tr, i), tr[i]).state
  {
    assert tr[..i + 1][..i] == tr[..i];
  }

  lemma StateAtEnd(s: GuardState, tr: seq<Timed>)
    ensures StateAt(s, tr, |tr|) == Run(s, tr)
  {
    assert tr[..|tr|] == tr;
  }

  // ---- Properties of runs ----

  /** The latest clock reading of a handler. */
  function LastClock(t: Timed): int {
    if t.ev.PauseCall? then t.ev.later else t.now
  }

  /** The clock never runs backwards and starts at or after zero, as
      `performance.now()` does. */
  predicate ClockOrdered(tr: seq<Timed>) {
    && (forall i | 0 <= i < |tr| :: 0 <= tr[i].now <= LastClock(tr[i]))
    && (forall i | 0 < i < |tr| :: LastClock(tr[i - 1]) <= tr[i].now)
  }

  /** The handler run `t` is a `clearIfGone` that actually clears. */
  predicate Resets(s: GuardState, t: Timed) {
    t.ev.Cleanup? && s.tracked.Some? && s.tracked.value !in t.ev.connected
  }

  lemma StepWindow(s: GuardState, t: Timed)
    requires 0 <= t.now <= LastClock(t)
    requires s.windowUntil <= t.now + WindowMs
    ensures Resets(s, t) || Step(s, t).state.windowUntil >= s.windowUntil
    ensures Step(s, t).state.windowUntil <= LastClock(t) + WindowMs
  {
  }

  /** With a clock that never runs backwards, every handler run keeps or
      extends the protection window, except a `clearIfGone` that finds the
      tracked video gone. */
  lemma {:induction false} WindowNeverShrinks(s: GuardState, tr: seq<Timed>)
    requires ClockOrdered(tr)
    requires |tr| > 0 ==> s.windowUntil <= tr[0].now + WindowMs
    ensures forall i | 0 <= i < |tr| ::
              Resets(StateAt(s, tr, i), tr[i]) || StateAt(s, tr, i + 1).windowUntil >= StateAt(s, tr, i).windowUntil
    ensures |tr| > 0 ==> Run(s, tr).windowUntil <= LastClock(tr[|tr| - 1]) + WindowMs
  {
    if tr != [] {
      var n := |tr| - 1;
      var p := tr[..n];
      assert ClockOrdered(p);
      assert |p| > 0 ==> p[0] == tr[0];
      WindowNeverShrinks(s, p);
      forall i | 0 <= i < n
        ensures Resets(StateAt(s, tr, i), tr[i]) || StateAt(s, tr, i + 1).windowUntil >= StateAt(s, tr, i).windowUntil
      {
        StateAtPrefix(s, tr, n, i);
        StateAtPrefix(s, tr, n, i + 1);
        assert p[i] == tr[i];
      }
      StateAtEnd(s, p);
      StateAtPrefix(s, tr, n, n);
      var before := StateAt(s, tr, n);
      assert before.windowUntil <= tr[n].now + WindowMs by {
        if n > 0 { assert LastClock(p[n - 1]) <= tr[n].now; }
      }
      StepWindow(before, tr[n]);
      StateAtNext(s, tr, n);
      StateAtEnd(s, tr);
    }
  }

  /** The handler run `t` is a key press that snapshots a playing main video:
      the only way protection is armed. */
  predicate ArmsProtection(t: Timed) {
    && t.ev.KeyDown?
    && Snapshots(t.ev.key, t.ev.videos)
    && !PickMainVideo(t.ev.videos, t.ev.viewWidth, t.ev.viewHeight).value.paused
  }

  /** The handler run answers a pause (a call or an event) with a play request. */
  predicate ResumesPause(s: GuardState, t: Timed) {
    && (t.ev.PauseCall? || t.ev.PauseEvent?)
    && exists k | 0 <= k < |Step(s, t).effects| :: Step(s, t).effects[k].Play?
  }

  lemma StepKeepsNotPlaying(s: GuardState, t: Timed)
    requires !s.lastWasPlaying && !ArmsProtection(t)
    ensures !Step(s, t).state.lastWasPlaying
    ensures !ResumesPause(s, t)
  {
  }

  /** Once the snapshot says the video was not playing (as after a key press
      on a paused video, or after a reset), it stays so and no element is
      protected until a key press finds a playing video. */
  lemma {:induction false} StaysNotPlaying(s: GuardState, tr: seq<Timed>)
    requires !s.lastWasPlaying
    requires forall i | 0 <= i < |tr| :: !ArmsProtection(tr[i])
    ensures !Run(s, tr).lastWasPlaying
    ensures forall el, now :: !Protected(Run(s, tr), el, now)
  {
    if tr != [] {
      var n := |tr| - 1;
      StaysNotPlaying(s, tr[..n]);
      StepKeepsNotPlaying(Run(s, tr[..n]), tr[n]);
    }
  }

  /** Until a key press finds a playing video, no pause, whether a call of
      `pause()` or a pause event, is answered with a play request. */
  lemma NoResurrection(s: GuardState, tr: seq<Timed>)
    requires !s.lastWasPlaying
    requires forall i | 0 <= i < |tr| :: !ArmsProtection(tr[i])
    ensures forall i | 0 <= i < |tr| :: !ResumesPause(StateAt(s, tr, i), tr[i])
  {
    forall i | 0 <= i < |tr|
      ensures !ResumesPause(StateAt(s, tr, i), tr[i])
    {
      StaysNotPlaying(s, tr[..i]);
      StepKeepsNotPlaying(StateAt(s, tr, i), tr[i]);
    }
  }

  /** The auto-play flag is set exactly while its expiry timeout is pending. */
  predicate AutoPlayConsistent(s: GuardState) {
    s.shouldAutoPlay <==> s.autoPlayExpiry.Some?
  }

  /** The flag and its pending timeout stay in step, and the flag is only
      ever set by an `ended` event of a media element. */
  lemma {:induction false} AutoPlayFlagMatchesTimer(s: GuardState, tr: seq<Timed>)
    requires AutoPlayConsistent(s) && !s.shouldAutoPlay
    ensures AutoPlayConsistent(Run(s, tr))
    ensures Run(s, tr).shouldAutoPlay ==> exists i | 0 <= i < |tr| :: tr[i].ev.Ended? && tr[i].ev.target.Some?
  {
    if tr != [] {
      var n := |tr| - 1;
      var p := tr[..n];
      AutoPlayFlagMatchesTimer(s, p);
      if tr[n].ev.Ended? && tr[n].ev.target.Some? {
        assert tr[n].ev.Ended? && tr[n].ev.target.Some?;
      } else if Run(s, tr).shouldAutoPlay {
        assert Run(s, p).shouldAutoPlay;
        var i :| 0 <= i < n && p[i].ev.Ended? && p[i].ev.target.Some?;
        assert tr[i] == p[i];
      }
    }
  }

  /** A second `clearIfGone` right after the first changes nothing, and it
      never touches the auto-play flag. */
  lemma ClearIfGoneIdempotent(s: GuardState, connected: set<VideoId>)
    ensures ClearedIfGone(ClearedIfGone(s, connected), connected) == ClearedIfGone(s, connected)
    ensures ClearedIfGone(s, connected).shouldAutoPlay == s.shouldAutoPlay
    ensures ClearedIfGone(s, connected).autoPlayExpiry == s.autoPlayExpiry
  {
  }

  // ---- The script's state as an object ----

  /** The module-level `let` variables of the script and its handlers. */
  class Guard {
    var windowUntil: int
    var trackedVideo: Option<VideoId>
    var lastWasPlaying: bool
    var shouldAutoPlay: bool
    var autoPlayTimeout: Option<int>

    function State(): GuardState
      reads this
    {
      GuardState(windowUntil, trackedVideo, lastWasPlaying, shouldAutoPlay, autoPlayTimeout)
    }

    ghost predicate Valid()
      reads this
    {
      AutoPlayConsistent(State())
    }

    constructor ()
      ensures State() == Initial && Valid()
    {
      windowUntil := 0;
      trackedVideo := None;
      lastWasPlaying := false;
      shouldAutoPlay := false;
      autoPlayTimeout := None;
    }

    /** `inProtectionWindowFor(el)` at time `now`. */
    predicate InProtectionWindowFor(el: Option<VideoId>, now: int)
      reads this
    {
      Protected(State(), el, now)
    }

    /** The capture-phase keydown listener. */
    method OnKeyDown(e: KeyEvent, videos: seq<Video>, vw: int, vh: int, now: int)
      requires Valid()
      modifies this
      ensures Valid()
      ensures !Snapshots(e, videos) ==> State() == old(State())
      ensures Snapshots(e, videos) ==>
                var v := PickMainVideo(videos, vw, vh).value;
                && trackedVideo == Some(v.id) && lastWasPlaying == !v.paused
                && windowUntil == now + WindowMs
                && shouldAutoPlay == old(shouldAutoPlay) && autoPlayTimeout == old(autoPlayTimeout)
      ensures State() == Step(old(State()), Timed(now, KeyDown(e, videos, vw, vh))).state
    {
      if !IsBareIKey(e) || IsEditable(e.target) {
        return;
      }
      var v := PickMainVideo(videos, vw, vh);
      if v.None? {
        return;
      }
      trackedVideo := Some(v.value.id);
      lastWasPlaying := !v.value.paused;
      windowUntil := now + WindowMs;
    }

    /** `patchedPause` on `el`: the native pause always runs; when `el` was
        protected at `now`, play is requested and the window is stretched to
        at least `later + BurstMs`. */
    method PatchedPause(el: VideoId, now: int, later: int) returns (effects: seq<Effect>)
      requires Valid()
      modifies this
      ensures Valid()
      ensures |effects| > 0 && effects[0] == NativePause(el)
      ensures var protect := old(InProtectionWindowFor(Some(el), now));
              && effects == (if protect then [NativePause(el), Play(el)] else [NativePause(el)])
              && windowUntil == (if protect then Max(old(windowUntil), later + BurstMs) else old(windowUntil))
      ensures windowUntil >= old(windowUntil)
      ensures trackedVideo == old(trackedVideo) && lastWasPlaying == old(lastWasPlaying)
      ensures shouldAutoPlay == old(shouldAutoPlay) && autoPlayTimeout == old(autoPlayTimeout)
      ensures Outcome(State(), effects) == Step(old(State()), Timed(now, PauseCall(el, later)))
    {
      var protect := InProtectionWindowFor(Some(el), now);
      effects := [NativePause(el)];
      if protect {
        effects := effects + [Play(el)];
        windowUntil := Max(windowUntil, later + BurstMs);
      }
    }

    /** The capture-phase `pause` listener: the safety net for pauses that
        did not go through `pause()`. */
    method OnPause(target: Option<Video>, now: int) returns (effects: seq<Effect>)
      ensures effects == if target.Some? && InProtectionWindowFor(Some(target.value.id), now)
                         then [Play(target.value.id)] else []
      ensures forall k | 0 <= k < |effects| :: effects[k] == Play(trackedVideo.value)
      ensures Outcome(State(), effects) == Step(State(), Timed(now, PauseEvent(target)))
    {
      effects := [];
      if target.Some? && InProtectionWindowFor(Some(target.value.id), now) {
        effects := [Play(target.value.id)];
      }
    }

    /** The `ended` listener: sets the flag and re-arms its expiry. */
    method OnEnded(target: Option<Video>, now: int)
      requires Valid()
      modifies this
      ensures Valid()
      ensures target.Some? ==> shouldAutoPlay && autoPlayTimeout == Some(now + AutoPlayExpiryMs)
      ensures target.None? ==> shouldAutoPlay == old(shouldAutoPlay) && autoPlayTimeout == old(autoPlayTimeout)
      ensures windowUntil == old(windowUntil) && trackedVideo == old(trackedVideo)
      ensures lastWasPlaying == old(lastWasPlaying)
      ensures State() == Step(old(State()), Timed(now, Ended(target))).state
    {
      if target.None? {
        return;
      }
      shouldAutoPlay := true;
      autoPlayTimeout := Some(now + AutoPlayExpiryMs);
    }

    /** The `canplay` listener: resumes a paused video while the flag is set. */
    method OnCanPlay(target: Option<Video>) returns (effects: seq<Effect>)
      ensures effects == if target.Some? && shouldAutoPlay && target.value.paused
                         then [Play(target.value.id)] else []
      ensures Outcome(State(), effects) == Step(State(), Timed(0, CanPlay(target)))
    {
      effects := [];
      if target.Some? && shouldAutoPlay && target.value.paused {
        effects := [Play(target.value.id)];
      }
    }

    /** The `playing` listener: a video that really plays clears the flag
        and cancels its expiry. */
    method OnPlaying(target: Option<Video>)
      requires Valid()
      modifies this
      ensures Valid()
      ensures target.Some? && !target.value.paused ==> !shouldAutoPlay && autoPlayTimeout.None?
      ensures (target.None? || target.value.paused) ==> State() == old(State())
      ensures windowUntil == old(windowUntil) && trackedVideo == old(trackedVideo)
      ensures lastWasPlaying == old(lastWasPlaying)
      ensures State() == Step(old(State()), Timed(0, Playing(target))).state
    {
      if target.None? {
        return;
      }
      if shouldAutoPlay && !target.value.paused {
        shouldAutoPlay := false;
        autoPlayTimeout := None;
      }
    }

    /** The expiry timeout firing at `now`. */
    method OnAutoPlayTimeout(now: int)
      requires Valid()
      modifies this
      ensures Valid()
      ensures old(autoPlayTimeout).Some? && old(autoPlayTimeout).value <= now ==>
                !shouldAutoPlay && autoPlayTimeout.None?
      ensures !(old(autoPlayTimeout).Some? && old(autoPlayTimeout).value <= now) ==> State() == old(State())
      ensures windowUntil == old(windowUntil) && trackedVideo == old(trackedVideo)
      ensures lastWasPlaying == old(lastWasPlaying)
      ensures State() == Step(old(State()), Timed(now, AutoPlayTimeout)).state
    {
      if autoPlayTimeout.Some? && autoPlayTimeout.value <= now {
        shouldAutoPlay := false;
        autoPlayTimeout := None;
      }
    }

    /** `clearIfGone`: forgets the tracked video once it left the document. */
    method ClearIfGone(connected: set<VideoId>)
      requires Valid()
      modifies this
      ensures Valid()
      ensures old(trackedVideo).Some? && old(trackedVideo).value !in connected ==>
                trackedVideo.None? && !lastWasPlaying && windowUntil == 0
      ensures !(old(trackedVideo).Some? && old(trackedVideo).value !in connected) ==> State() == old(State())
      ensures shouldAutoPlay == old(shouldAutoPlay) && autoPlayTimeout == old(autoPlayTimeout)
      ensures State() == Step(old(State()), Timed(0, Cleanup(connected))).state
    {
      if trackedVideo.Some? && trackedVideo.value !in connected {
        trackedVideo := None;
        lastWasPlaying := false;
        windowUntil := 0;
      }
    }
  }
}
