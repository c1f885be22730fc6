/** Playback: the audio element the player drives, the playback session of
    the full front end (current episode, speed, sleep timer, auto-play) and
    the smaller session of the basic front end. */
module Playback {
  import opened Wrappers
  import opened Js
  import opened FeedParser
  import opened Catalog

  // ---------------------------------------------------------------------
  // Seeking
  // ---------------------------------------------------------------------

  /** `Math.max(0, t - 15)`: the rewind button's target. */
  function Rewound(t: real): (r: real)
    ensures r >= 0.0 && r <= (if t >= 0.0 then t else 0.0)
    ensures t >= 15.0 ==> r == t - 15.0
    ensures t < 15.0 ==> r == 0.0
  {
    if t - 15.0 > 0.0 then t - 15.0 else 0.0
  }

  /** `Math.min(d, t + 30)` for a known duration d: the forward button's
      target. */
  function Forwarded(t: real, d: real): (r: real)
    ensures r <= d && r <= t + 30.0
    ensures r == d || r == t + 30.0
    ensures t <= d ==> t <= r
  {
    if d < t + 30.0 then d else t + 30.0
  }

  // ---------------------------------------------------------------------
  // The audio element
  // ---------------------------------------------------------------------

  /** The state of an HTML audio element that the player reads and writes.
      `duration` is NaN until the media's metadata is known. */
  class AudioElement {
    var src: string
    var paused: bool
    var playbackRate: real
    var currentTime: real
    var duration: Number

    /** A new element: no source, paused, normal rate, at 0, NaN duration. */
    constructor ()
      ensures src == "" && paused && playbackRate == 1.0 && currentTime == 0.0 && duration == NaN
      ensures Valid()
    {
      src := "";
      paused := true;
      playbackRate := 1.0;
      currentTime := 0.0;
      duration := NaN;
    }

    /** The position is never negative and never past a known duration. */
    ghost predicate Valid()
      reads this
    {
      && currentTime >= 0.0
      && (duration.Finite? ==> 0.0 <= currentTime <= duration.value)
    }

    method Play()
      modifies this
      ensures !paused
      ensures src == old(src) && playbackRate == old(playbackRate)
      ensures currentTime == old(currentTime) && duration == old(duration)
    {
      paused := false;
    }

    method Pause()
      modifies this
      ensures paused
      ensures src == old(src) && playbackRate == old(playbackRate)
      ensures currentTime == old(currentTime) && duration == old(duration)
    {
      paused := true;
    }

    /** `togglePlayPause()`: play when paused, pause otherwise. */
    method TogglePlayPause()
      modifies this
      ensures paused == !old(paused)
      ensures src == old(src) && playbackRate == old(playbackRate)
      ensures currentTime == old(currentTime) && duration == old(duration)
    {
      if paused {
        Play();
      } else {
        Pause();
      }
    }

    /** Assigning `src` runs the media element load algorithm of the HTML
        standard: the element is paused, its position goes back to 0, its
        duration becomes unknown and its rate returns to the default 1. */
    method SetSource(url: string)
      modifies this
      ensures src == url && paused && currentTime == 0.0 && duration == NaN && playbackRate == 1.0
      ensures Valid()
    {
      src := url;
      paused := true;
      currentTime := 0.0;
      duration := NaN;
      playbackRate := 1.0;
    }

    /** The rewind buttons: 15 seconds back, not before the start. */
    method Rewind()
      requires Valid()
      modifies this
      ensures currentTime == Rewound(old(currentTime))
      ensures currentTime <= old(currentTime)
      ensures src == old(src) && paused == old(paused) && playbackRate == old(playbackRate) && duration == old(duration)
      ensures Valid()
    {
      currentTime := Rewound(currentTime);
    }

    /** The forward buttons: 30 seconds on, not past the end. With an
        unknown duration the target is NaN, which the `currentTime` setter
        rejects, so nothing changes. */
    method Forward()
      requires Valid()
      modifies this
      ensures duration.NaN? ==> currentTime == old(currentTime)
      ensures duration.Finite? ==> currentTime == Forwarded(old(currentTime), duration.value)
      ensures currentTime >= old(currentTime)
      ensures src == old(src) && paused == old(paused) && playbackRate == old(playbackRate) && duration == old(duration)
      ensures Valid()
    {
      if duration.Finite? {
        currentTime := Forwarded(currentTime, duration.value);
      }
    }
  }

  // ---------------------------------------------------------------------
  // Speeds
  // ---------------------------------------------------------------------

  /** The speeds `cycleSpeed` steps through. */
  const Speeds: seq<real> := [0.5, 0.75, 1.0, 1.25, 1.5, 1.75, 2.0]

  /** `speeds.indexOf(s)`: the position of s, or -1. */
  function SpeedIndex(s: real): (r: int)
    ensures -1 <= r < |Speeds|
    ensures r >= 0 ==> Speeds[r] == s
    ensures r == -1 <==> s !in Speeds
  {
    if s == 0.5 then 0 else if s == 0.75 then 1 else if s == 1.0 then 2
    else if s == 1.25 then 3 else if s == 1.5 then 4 else if s == 1.75 then 5
    else if s == 2.0 then 6 else -1
  }

  /** The speed `cycleSpeed` moves to from s. */
  function NextSpeed(s: real): (r: real)
    ensures r in Speeds
  {
    Speeds[(SpeedIndex(s) + 1) % |Speeds|]
  }

  /** A listed speed moves to the next one, and the last wraps to the first. */
  lemma NextOfListed(i: nat)
    requires i < |Speeds|
    ensures i < |Speeds| - 1 ==> NextSpeed(Speeds[i]) == Speeds[i + 1]
    ensures i == |Speeds| - 1 ==> NextSpeed(Speeds[i]) == Speeds[0] == 0.5
  {
    assert SpeedIndex(Speeds[i]) == i;
    if i < |Speeds| - 1 {
      assert (i + 1) % |Speeds| == i + 1;
    } else {
      assert (i + 1) % |Speeds| == 0;
    }
  }

  /** A speed outside the list goes to the first one, 0.5. */
  lemma NextOfUnlisted(s: real)
    requires s !in Speeds
    ensures NextSpeed(s) == 0.5
  {
  }

  /** x after n applications of f. */
  function Iterate<T>(f: T -> T, x: T, n: nat): T
    decreases n
  {
    if n == 0 then x else Iterate(f, f(x), n - 1)
  }

  /** a applications and then b applications are a + b applications. */
  lemma {:induction false} IterateCompose<T>(f: T -> T, x: T, a: nat, b: nat)
    ensures Iterate(f, Iterate(f, x, a), b) == Iterate(f, x, a + b)
    decreases a
  {
    if a > 0 {
      IterateCompose(f, f(x), a - 1, b);
    }
  }

  /** The first of n steps from x goes to f(x). */
  lemma IterateStep<T>(f: T -> T, x: T, y: T, n: nat)
    requires n > 0 && f(x) == y
    ensures Iterate(f, x, n) == Iterate(f, y, n - 1)
  {
  }

  /** From x to y in a steps and from y to z in b steps is a + b steps. */
  lemma IterateThrough<T>(f: T -> T, x: T, y: T, z: T, a: nat, b: nat, d: nat)
    requires Iterate(f, x, a) == y && Iterate(f, y, b) == z && d == a + b
    ensures Iterate(f, x, d) == z
  {
    IterateCompose(f, x, a, b);
  }

  /** n presses of the speed button. */
  function Cycle(s: real, n: nat): real {
    Iterate(NextSpeed, s, n)
  }

  /** a presses and then b presses are a + b presses. */
  lemma CycleCompose(s: real, a: nat, b: nat)
    ensures Cycle(Cycle(s, a), b) == Cycle(s, a + b)
  {
    IterateCompose(NextSpeed, s, a, b);
  }

  /** Short of the end of the list, n presses move n places on. */
  lemma {:induction false} CycleAdvances(i: nat, n: nat)
    requires i + n < |Speeds|
    ensures Cycle(Speeds[i], n) == Speeds[i + n]
    decreases n
  {
    if n > 0 {
      NextOfListed(i);
      IterateStep(NextSpeed, Speeds[i], Speeds[i + 1], n);
      CycleAdvances(i + 1, n - 1);
    }
  }

  /** From a listed speed, the presses reach the last speed, then wrap
      around to the first. */
  lemma CycleWraps(i: nat)
    requires i < |Speeds|
    ensures Cycle(Speeds[i], |Speeds| - i) == 0.5
  {
    CycleAdvances(i, |Speeds| - 1 - i);
    CycleCompose(Speeds[i], |Speeds| - 1 - i, 1);
    NextOfListed(|Speeds| - 1);
  }

  /** Seven presses bring any listed speed back. */
  lemma CycleReturns(s: real)
    requires s in Speeds
    ensures Cycle(s, |Speeds|) == s
  {
    var i := SpeedIndex(s);
    CycleWraps(i);
    CycleAdvances(0, i);
    CycleCompose(s, |Speeds| - i, i);
  }

  /** From any speed at all, at most seven presses reach every listed speed. */
  lemma CycleReachesAll(s: real, target: real)
    requires target in Speeds
    ensures exists n: nat | n <= |Speeds| :: Cycle(s, n) == target
  {
    var first := NextSpeed(s);
    var j := SpeedIndex(first);
    var d := Distance(j, SpeedIndex(target));
    assert Cycle(s, 1) == first;
    CycleCompose(s, 1, d);
    assert Cycle(s, 1 + d) == target;
  }

  /** Presses needed from the jth listed speed to the tth, at most six. */
  lemma Distance(j: nat, t: nat) returns (d: nat)
    requires j < |Speeds| && t < |Speeds|
    ensures d < |Speeds| && Cycle(Speeds[j], d) == Speeds[t]
  {
    if t >= j {
      d := t - j;
      CycleAdvances(j, d);
      assert j + d == t;
    } else {
      d := |Speeds| - j + t;
      WrapDistance(j, t, d);
    }
  }

  /** Going round past the last speed: 7 - j presses to 0.5, then t more. */
  lemma WrapDistance(j: nat, t: nat, d: nat)
    requires t < j < |Speeds| && d == |Speeds| - j + t
    ensures Cycle(Speeds[j], d) == Speeds[t]
  {
    var w := |Speeds| - j;
    CycleWraps(j);
    CycleAdvances(0, t);
    IterateThrough(NextSpeed, Speeds[j], Speeds[0], Speeds[t], w, t, d);
  }

  // ---------------------------------------------------------------------
  // Episode lookup
  // ---------------------------------------------------------------------

  /** `list[index]`: undefined (None) outside the list. */
  function At(list: seq<EpisodeItem>, index: int): (r: Option<EpisodeItem>)
    ensures r.Some? <==> 0 <= index < |list|
    ensures r.Some? ==> r.value == list[index]
  {
    if 0 <= index < |list| then Some(list[index]) else None
  }

  /** `list.indexOf(x)`: the first position holding that very object, or -1
      (always -1 for null). */
  function IndexOf(list: seq<EpisodeItem>, x: Option<EpisodeItem>): (r: int)
    ensures -1 <= r < |list|
    ensures r >= 0 ==> x == Some(list[r]) && forall j | 0 <= j < r :: list[j] != list[r]
    ensures r == -1 <==> x.None? || x.value !in list
  {
    if x.None? then -1
    else match Find(list, (e: EpisodeItem) => e == x.value)
      case None => -1
      case Some(k) => k
  }

  /** In a list of distinct objects, the object at i is found at i. */
  lemma IndexOfDistinct(list: seq<EpisodeItem>, i: nat)
    requires i < |list|
    requires forall a, b | 0 <= a < b < |list| :: list[a] != list[b]
    ensures IndexOf(list, Some(list[i])) == i
  {
  }

  /** The index `handleEpisodeEnded` plays next, if any: the one after the
      current episode, when auto-play is on and there is a next one. */
  function NextToPlay(autoplay: bool, list: seq<EpisodeItem>, current: Option<EpisodeItem>): (r: Option<nat>)
    ensures r.Some? ==> autoplay && 0 < r.value < |list| && current == Some(list[r.value - 1])
    ensures r.Some? ==> IndexOf(list, current) == r.value - 1
    ensures autoplay && 0 <= IndexOf(list, current) < |list| - 1 ==> r.Some?
  {
    var i := IndexOf(list, current);
    if autoplay && 0 <= i < |list| - 1 then Some(i + 1) else None
  }

  /** With distinct objects, the episode after position i is played next,
      and the last episode has no successor. */
  lemma NextAfter(list: seq<EpisodeItem>, i: nat)
    requires i < |list|
    requires forall a, b | 0 <= a < b < |list| :: list[a] != list[b]
    ensures i < |list| - 1 ==> NextToPlay(true, list, Some(list[i])) == Some(i + 1)
    ensures i == |list| - 1 ==> NextToPlay(true, list, Some(list[i])).None?
  {
    IndexOfDistinct(list, i);
  }

  // ---------------------------------------------------------------------
  // The playback session of the full front end
  // ---------------------------------------------------------------------

  class Session {
    /** The catalog whose filtered list the episode indices refer to. */
    const catalog: Catalog
    const audio: AudioElement
    var currentEpisode: Option<EpisodeItem>
    var currentSpeed: real
    /** The handle of the armed sleep timer. */
    var sleepTimer: Option<nat>
    /** When the armed sleep timer fires, in milliseconds since the epoch. */
    var sleepTimerEndTime: Option<int>

    /** The initial state: nothing playing, speed 1, no timer. */
    constructor (catalog: Catalog, audio: AudioElement)
      requires audio.Valid()
      ensures this.catalog == catalog && this.audio == audio
      ensures currentEpisode.None? && currentSpeed == 1.0 && sleepTimer.None? && sleepTimerEndTime.None?
      ensures Valid()
    {
      this.catalog := catalog;
      this.audio := audio;
      currentEpisode := None;
      currentSpeed := 1.0;
      sleepTimer := None;
      sleepTimerEndTime := None;
    }

    /** A deadline exists exactly when a timer is armed, and the audio
        element is consistent. */
    ghost predicate Valid()
      reads this, audio
    {
      && (sleepTimer.Some? <==> sleepTimerEndTime.Some?)
      && audio.Valid()
    }

    /** `playEpisode(index)`: the current episode becomes the filtered
        list's element at index, or undefined, before anything is checked;
        with an episode that has audio, the element loads it, takes the
        session speed and plays. */
    method PlayEpisode(index: int)
      requires Valid()
      modifies this, audio
      ensures currentEpisode == At(catalog.filteredEpisodes, index)
      ensures currentSpeed == old(currentSpeed) && sleepTimer == old(sleepTimer)
      ensures sleepTimerEndTime == old(sleepTimerEndTime)
      ensures Valid()
      ensures if currentEpisode.Some? && currentEpisode.value.episode.audioUrl != "" then
                && audio.src == currentEpisode.value.episode.audioUrl
                && !audio.paused && audio.playbackRate == currentSpeed && audio.currentTime == 0.0
              else
                && audio.src == old(audio.src) && audio.paused == old(audio.paused)
                && audio.playbackRate == old(audio.playbackRate)
                && audio.currentTime == old(audio.currentTime) && audio.duration == old(audio.duration)
    {
      currentEpisode := At(catalog.filteredEpisodes, index);
      if currentEpisode.None? || currentEpisode.value.episode.audioUrl == "" {
        return;
      }
      audio.SetSource(currentEpisode.value.episode.audioUrl);
      audio.playbackRate := currentSpeed;
      audio.Play();
    }

    /** `closeMiniPlayer()`: the element is paused and emptied, and nothing
        is current. */
    method CloseMiniPlayer()
      requires Valid()
      modifies this, audio
      ensures currentEpisode.None? && audio.paused && audio.src == "" && audio.currentTime == 0.0
      ensures currentSpeed == old(currentSpeed) && sleepTimer == old(sleepTimer)
      ensures sleepTimerEndTime == old(sleepTimerEndTime)
      ensures Valid()
    {
      audio.Pause();
      audio.SetSource("");
      currentEpisode := None;
    }

    /** `setSpeed(speed)`: the session speed and the element's rate agree. */
    method SetSpeed(speed: real)
      requires Valid()
      modifies this, audio
      ensures currentSpeed == speed && audio.playbackRate == speed
      ensures audio.src == old(audio.src) && audio.paused == old(audio.paused)
      ensures audio.currentTime == old(audio.currentTime) && audio.duration == old(audio.duration)
      ensures currentEpisode == old(currentEpisode) && sleepTimer == old(sleepTimer)
      ensures sleepTimerEndTime == old(sleepTimerEndTime)
      ensures Valid()
    {
      currentSpeed := speed;
      audio.playbackRate := speed;
    }

    /** `cycleSpeed()`. */
    method CycleSpeed()
      requires Valid()
      modifies this, audio
      ensures currentSpeed == NextSpeed(old(currentSpeed)) && audio.playbackRate == currentSpeed
      ensures audio.src == old(audio.src) && audio.paused == old(audio.paused)
      ensures audio.currentTime == old(audio.currentTime) && audio.duration == old(audio.duration)
      ensures currentEpisode == old(currentEpisode) && sleepTimer == old(sleepTimer)
      ensures sleepTimerEndTime == old(sleepTimerEndTime)
      ensures Valid()
    {
      SetSpeed(NextSpeed(currentSpeed));
    }

    /** `cancelSleepTimer()`: no timer and no deadline afterwards. */
    method CancelSleepTimer()
      requires Valid()
      modifies this
      ensures sleepTimer.None? && sleepTimerEndTime.None?
      ensures currentEpisode == old(currentEpisode) && currentSpeed == old(currentSpeed)
      ensures Valid()
    {
      if sleepTimer.Some? {
        sleepTimer := None;
        sleepTimerEndTime := None;
      }
    }

    /** `setSleepTimer(minutes)` at time `now`, with `handle` the positive
        id the browser gives the new timeout: any armed timer is cancelled
        first, so one deadline remains, minutes * 60000 ms from now. */
    method SetSleepTimer(minutes: int, now: int, handle: nat)
      requires Valid() && handle > 0
      modifies this
      ensures sleepTimer == Some(handle) && sleepTimerEndTime == Some(now + minutes * 60 * 1000)
      ensures currentEpisode == old(currentEpisode) && currentSpeed == old(currentSpeed)
      ensures Valid()
    {
      CancelSleepTimer();
      sleepTimerEndTime := Some(now + minutes * 60 * 1000);
      sleepTimer := Some(handle);
    }

    /** The armed sleep timer fires: the audio is paused and the timer and
        its deadline are cleared. */
    method SleepTimerExpires()
      requires Valid() && sleepTimer.Some?
      modifies this, audio
      ensures audio.paused && sleepTimer.None? && sleepTimerEndTime.None?
      ensures audio.src == old(audio.src) && audio.currentTime == old(audio.currentTime)
      ensures audio.playbackRate == old(audio.playbackRate) && audio.duration == old(audio.duration)
      ensures currentEpisode == old(currentEpisode) && currentSpeed == old(currentSpeed)
      ensures Valid()
    {
      audio.Pause();
      CancelSleepTimer();
    }

    /** `handleEpisodeEnded()` with the auto-play checkbox's state: the
        next filtered episode is played only when there is one after the
        current episode; otherwise nothing changes. */
    method HandleEpisodeEnded(autoplay: bool)
      requires Valid()
      modifies this, audio
      ensures var next := NextToPlay(autoplay, catalog.filteredEpisodes, old(currentEpisode));
              next.Some? ==>
                && currentEpisode == Some(catalog.filteredEpisodes[next.value])
                && if catalog.filteredEpisodes[next.value].episode.audioUrl != "" then
                     && audio.src == catalog.filteredEpisodes[next.value].episode.audioUrl
                     && !audio.paused && audio.playbackRate == currentSpeed && audio.currentTime == 0.0
                   else
                     && audio.src == old(audio.src) && audio.paused == old(audio.paused)
                     && audio.playbackRate == old(audio.playbackRate)
                     && audio.currentTime == old(audio.currentTime) && audio.duration == old(audio.duration)
      ensures NextToPlay(autoplay, catalog.filteredEpisodes, old(currentEpisode)).None? ==>
                && currentEpisode == old(currentEpisode)
                && audio.src == old(audio.src) && audio.paused == old(audio.paused)
                && audio.playbackRate == old(audio.playbackRate)
                && audio.currentTime == old(audio.currentTime) && audio.duration == old(audio.duration)
      ensures currentSpeed == old(currentSpeed) && sleepTimer == old(sleepTimer)
      ensures sleepTimerEndTime == old(sleepTimerEndTime)
      ensures Valid()
    {
      var next := NextToPlay(autoplay, catalog.filteredEpisodes, currentEpisode);
      if next.Some? {
        PlayEpisode(next.value);
      }
    }
  }

  // ---------------------------------------------------------------------
  // The basic front end
  // ---------------------------------------------------------------------

  class BasicSession {
    const catalog: Catalog
    const audio: AudioElement
    var currentEpisode: Option<EpisodeItem>

    constructor (catalog: Catalog, audio: AudioElement)
      ensures this.catalog == catalog && this.audio == audio && currentEpisode.None?
    {
      this.catalog := catalog;
      this.audio := audio;
      currentEpisode := None;
    }

    /** `playEpisode(index)` of the basic front end: as in the full one,
        but without a speed, and the player page reads the current
        podcast's name after loading the source, which throws before
        `play()` when no podcast is open. */
    method PlayEpisode(index: int)
      modifies this, audio
      ensures currentEpisode == At(catalog.filteredEpisodes, index)
      ensures if currentEpisode.Some? && currentEpisode.value.episode.audioUrl != "" then
                && audio.src == currentEpisode.value.episode.audioUrl && audio.currentTime == 0.0
                && audio.paused == catalog.currentPodcast.None?
                && audio.playbackRate == 1.0 && audio.duration == NaN
              else
                && audio.src == old(audio.src) && audio.paused == old(audio.paused)
                && audio.currentTime == old(audio.currentTime) && audio.duration == old(audio.duration)
                && audio.playbackRate == old(audio.playbackRate)
    {
      currentEpisode := At(catalog.filteredEpisodes, index);
      if currentEpisode.None? || currentEpisode.value.episode.audioUrl == "" {
        return;
      }
      audio.SetSource(currentEpisode.value.episode.audioUrl);
      if catalog.currentPodcast.None? {
        return;
      }
      audio.Play();
    }
  }
}
