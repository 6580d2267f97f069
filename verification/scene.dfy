/**
  The scene: the three collections of stars, the scene start time and the
  time of the last shooting-star launch; the scene (re)initialisation, and
  the per-frame step that gates on visibility, latches the start time,
  perhaps launches a dormant shooting star, and updates every star.

  The host supplies, per frame: visibility, the timestamp, the pointer
  position, and the values of the random, trigonometric and square-root
  calls the frame makes.
*/
module StarScene {
  import opened Wrappers
  import opened Inputs
  import opened Repulsion
  import opened GlyphSampler
  import opened BackgroundStars
  import opened TextStars
  import opened ShootingStars

  const NumBackgroundStars: nat := 200
  const PoolSize: nat := 5
  const TextRevealStart: real := 2000.0
  const TextRevealDuration: real := 4000.0
  /** The reveal delay of each text star is moved by up to half of this either way. */
  const JitterSpan: real := 500.0
  /** A launch is due once more than StreakGap + draw * StreakGapSpread ms have passed since the last one. */
  const StreakGap: real := 8000.0
  const StreakGapSpread: real := 4000.0

  // ---- Reveal schedule ----

  /** The un-jittered delay of the i-th of n text stars in reveal order: 2000 + (i / n) * 4000. */
  function RevealDelay(i: nat, n: nat): (d: real)
    requires i < n
    ensures TextRevealStart <= d < TextRevealStart + TextRevealDuration
  {
    assert 0.0 <= i as real / n as real < 1.0 by { FractionBelowOne(i, n); }
    TextRevealStart + (i as real / n as real) * TextRevealDuration
  }

  lemma FractionBelowOne(i: nat, n: nat)
    requires i < n
    ensures 0.0 <= i as real / n as real < 1.0
  {
    var q := i as real / n as real;
    assert q * n as real == i as real;
    if q >= 1.0 {
      MulNonNegative(q - 1.0, n as real);
    }
  }

  /** Later positions in the reveal order never get an earlier un-jittered delay. */
  lemma RevealDelayNonDecreasing(i: nat, j: nat, n: nat)
    requires i <= j < n
    ensures RevealDelay(i, n) <= RevealDelay(j, n)
  {
    var a := i as real / n as real;
    var b := j as real / n as real;
    assert b - a == (j - i) as real / n as real;
    MulNonNegative((j - i) as real, 1.0 / n as real);
    assert a <= b;
    MulNonNegative(b - a, TextRevealDuration);
  }

  /** The delay given to the i-th text star: the reveal delay plus (draw - 0.5) * 500, a jitter in [-250, 250). */
  function JitteredDelay(i: nat, n: nat, draw: real): (d: real)
    requires i < n && IsDraw(draw)
    ensures RevealDelay(i, n) - JitterSpan / 2.0 <= d < RevealDelay(i, n) + JitterSpan / 2.0
  {
    RevealDelay(i, n) + (draw - 0.5) * JitterSpan
  }

  /** A permutation of 0 .. n-1: the order in which the n sampled points are revealed. */
  predicate IsRevealOrder(order: seq<nat>, n: nat)
  {
    |order| == n && (forall i :: 0 <= i < n ==> order[i] < n) &&
    forall i, j :: 0 <= i < j < n ==> order[i] != order[j]
  }

  /**
    Every sampled point gets a text star: a reveal order of n points uses
    each of 0 .. n-1 at some position.
  */
  lemma RevealOrderCoversEveryPoint(order: seq<nat>, n: nat)
    requires IsRevealOrder(order, n)
    ensures forall p: nat :: p < n ==> p in order
  {
    var used := set i | 0 <= i < n :: order[i];
    DistinctImageSize(order, n);
    forall p: nat | p < n
      ensures p in order
    {
      if p !in used {
        var rest := Below(n) - {p};
        assert |rest| == n - 1 by { assert Below(n) == rest + {p}; }
        assert used <= rest;
        SubsetSize(used, rest);
        assert false;
      }
    }
  }

  /** The first k positions of a sequence without repeats hold k different values. */
  lemma {:induction false} DistinctImageSize(order: seq<nat>, k: nat)
    requires k <= |order| && forall i, j :: 0 <= i < j < |order| ==> order[i] != order[j]
    ensures |set i | 0 <= i < k :: order[i]| == k
  {
    if k > 0 {
      DistinctImageSize(order, k - 1);
      var before := set i | 0 <= i < k - 1 :: order[i];
      assert (set i | 0 <= i < k :: order[i]) == before + {order[k - 1]};
      assert order[k - 1] !in before;
    }
  }

  /** The numbers 0 .. n-1. */
  ghost function Below(n: nat): (r: set<nat>)
    ensures |r| == n && forall p: nat :: p in r <==> p < n
  {
    if n == 0 then {}
    else
      var r := Below(n - 1);
      assert n - 1 !in r;
      r + {n - 1}
  }

  lemma {:induction false} SubsetSize<T>(a: set<T>, b: set<T>)
    requires a <= b
    ensures |a| <= |b|
  {
    if a != {} {
      var x :| x in a;
      SubsetSize(a - {x}, b - {x});
    }
  }

  // ---- Start-time latch ----

  /**
    The start time after a visible frame at `timestamp`: the script tests
    `!starStartTime`, so an unset start time and a start time of exactly 0
    are both replaced by the timestamp.
  */
  function LatchStart(start: Option<real>, timestamp: real): (r: real)
    ensures r == timestamp || (start.Some? && r == start.value)
    ensures start.Some? && start.value != 0.0 ==> r == start.value
  {
    if start.None? || start.value == 0.0 then timestamp else start.value
  }

  datatype Frame = Frame(visible: bool, timestamp: real)

  /** The start time after a run of frames; a hidden frame returns before the latch. */
  function StartAfter(start: Option<real>, frames: seq<Frame>): (r: Option<real>)
    ensures r.None? <==> start.None? && forall i :: 0 <= i < |frames| ==> !frames[i].visible
    decreases |frames|
  {
    if frames == [] then start
    else StartAfter(if frames[0].visible then Some(LatchStart(start, frames[0].timestamp)) else start, frames[1..])
  }

  predicate Latches(f: Frame)
  {
    f.visible && f.timestamp != 0.0
  }

  /** While the scene is hidden, frames leave the start time as it is, unset or not. */
  lemma {:induction false} HiddenFramesKeepStart(start: Option<real>, frames: seq<Frame>)
    requires forall i :: 0 <= i < |frames| ==> !frames[i].visible
    ensures StartAfter(start, frames) == start
    decreases |frames|
  {
    if frames != [] {
      HiddenFramesKeepStart(start, frames[1..]);
    }
  }

  /** A start time latched to a non-zero timestamp never moves again. */
  lemma {:induction false} StartStaysLatched(s: real, frames: seq<Frame>)
    requires s != 0.0
    ensures StartAfter(Some(s), frames) == Some(s)
    decreases |frames|
  {
    if frames != [] {
      StartStaysLatched(s, frames[1..]);
    }
  }

  /**
    From an unset start (or one latched at 0), the start time ends up at
    the timestamp of the first visible frame whose timestamp is not 0.
  */
  lemma {:induction false} StartIsFirstLatchingFrame(start: Option<real>, frames: seq<Frame>, k: nat)
    requires start.None? || start == Some(0.0)
    requires k < |frames| && Latches(frames[k])
    requires forall j :: 0 <= j < k ==> !Latches(frames[j])
    ensures StartAfter(start, frames) == Some(frames[k].timestamp)
    decreases |frames|
  {
    var rest := frames[1..];
    if k == 0 {
      StartStaysLatched(frames[0].timestamp, rest);
    } else {
      assert !Latches(frames[0]);
      forall j | 0 <= j < k - 1 ensures !Latches(rest[j]) {
        assert rest[j] == frames[j + 1];
      }
      StartIsFirstLatchingFrame(if frames[0].visible then Some(LatchStart(start, frames[0].timestamp)) else start, rest, k - 1);
    }
  }

  /**
    Without a visible frame at a non-zero timestamp, an unset start becomes
    0 at the first visible frame (at timestamp 0) and stays unset if there
    is none.
  */
  lemma {:induction false} StartWithoutLatchingFrame(start: Option<real>, frames: seq<Frame>)
    requires start.None? || start == Some(0.0)
    requires forall i :: 0 <= i < |frames| ==> !Latches(frames[i])
    ensures StartAfter(start, frames) == if exists i :: 0 <= i < |frames| && frames[i].visible then Some(0.0) else start
    decreases |frames|
  {
    if frames != [] {
      var rest := frames[1..];
      assert forall i :: 0 <= i < |rest| ==> rest[i] == frames[i + 1];
      var next := if frames[0].visible then Some(LatchStart(start, frames[0].timestamp)) else start;
      StartWithoutLatchingFrame(next, rest);
      if frames[0].visible {
        assert next == Some(0.0);
      } else if exists i :: 0 <= i < |frames| && frames[i].visible {
        var i :| 0 <= i < |frames| && frames[i].visible;
        assert rest[i - 1].visible;
      }
    }
  }

  // ---- Shooting-star pool ----

  /** `shootingStars.find(s => !s.active)`, as an index. */
  function FirstInactive(pool: seq<ShootingStar>): (r: Option<nat>)
    reads pool
    ensures r.Some? ==> r.value < |pool| && !pool[r.value].active && forall j :: 0 <= j < r.value ==> pool[j].active
    ensures r.None? ==> forall j :: 0 <= j < |pool| ==> pool[j].active
    decreases |pool|
  {
    if pool == [] then None
    else if !pool[0].active then Some(0)
    else
      match FirstInactive(pool[1..])
      case None => None
      case Some(i) => Some(i + 1)
  }

  // ---- Per-frame inputs ----

  /** cos(angle) and sin(angle) of one shooting star. */
  datatype Heading = Heading(cos: real, sin: real)

  predicate IsHeading(h: Heading)
  {
    IsSine(h.cos) && IsSine(h.sin)
  }

  ghost predicate Distinct<T>(s: seq<T>)
  {
    forall i, j :: 0 <= i < j < |s| ==> s[i] != s[j]
  }

  /** The visible state of every streak in the pool. */
  ghost function Views(pool: seq<ShootingStar>): (r: seq<Streak>)
    reads pool
    ensures |r| == |pool| && forall j :: 0 <= j < |pool| ==> r[j] == pool[j].View()
  {
    seq(|pool|, j requires 0 <= j < |pool| reads pool => pool[j].View())
  }

  /** Every streak moved once, the j-th along heading j. */
  function AdvanceAll(views: seq<Streak>, headings: seq<Heading>, width: nat, height: nat): (r: seq<Streak>)
    requires |headings| == |views| && forall j :: 0 <= j < |headings| ==> IsHeading(headings[j])
    ensures |r| == |views|
    ensures forall j :: 0 <= j < |views| && !views[j].active ==> r[j] == views[j]
    ensures forall j :: 0 <= j < |views| && views[j].active ==>
              r[j].opacity == views[j].opacity - Fade && (r[j].active ==> r[j].opacity > 0.0)
  {
    seq(|views|, j requires 0 <= j < |views| && IsHeading(headings[j]) => Advance(views[j], headings[j].cos, headings[j].sin, width, height))
  }

  /** The `backgroundStars` loop of `initStarScene`: one star per draw. */
  method NewBackgroundStars(width: nat, height: nat, ambient: seq<AmbientDraw>) returns (stars: seq<BackgroundStar>)
    requires forall i :: 0 <= i < |ambient| ==> IsAmbientDraw(ambient[i])
    ensures |stars| == |ambient| && Distinct(stars)
    ensures forall i :: 0 <= i < |stars| ==> fresh(stars[i]) && stars[i].Valid() && stars[i].FromDraw(width, height, ambient[i])
  {
    stars := [];
    for i := 0 to |ambient|
      invariant |stars| == i && Distinct(stars)
      invariant forall j :: 0 <= j < i ==> fresh(stars[j]) && stars[j].Valid() && stars[j].FromDraw(width, height, ambient[j])
    {
      var star := new BackgroundStar(width, height, ambient[i]);
      stars := stars + [star];
    }
  }

  /**
    The `textStars` loop of `initStarScene`: the i-th star in reveal order
    sits on point order[i] and waits 2000 + (i / n) * 4000 ms, moved by
    (jitter[i] - 0.5) * 500.
  */
  method NewTextStars(points: seq<Point>, order: seq<nat>, glyph: seq<GlyphDraw>, jitter: seq<real>)
    returns (stars: seq<TextStar>)
    requires IsRevealOrder(order, |points|) && |glyph| == |points| && |jitter| == |points|
    requires forall i :: 0 <= i < |points| ==> IsGlyphDraw(glyph[i]) && IsDraw(jitter[i])
    ensures |stars| == |points| && Distinct(stars)
    ensures forall i :: 0 <= i < |stars| ==>
      fresh(stars[i]) && stars[i].Valid() &&
      stars[i].Spawned(points[order[i]].x as real, points[order[i]].y as real, JitteredDelay(i, |points|, jitter[i]), glyph[i])
  {
    var n := |points|;
    stars := [];
    for i := 0 to n
      invariant |stars| == i && Distinct(stars)
      invariant forall j :: 0 <= j < i ==>
        fresh(stars[j]) && stars[j].Valid() &&
        stars[j].Spawned(points[order[j]].x as real, points[order[j]].y as real, JitteredDelay(j, n, jitter[j]), glyph[j])
    {
      var delay := TextRevealStart + (i as real / n as real) * TextRevealDuration;
      var randomDelay := delay + (jitter[i] - 0.5) * JitterSpan;
      var point := points[order[i]];
      var star := new TextStar(point.x as real, point.y as real, randomDelay, glyph[i]);
      stars := stars + [star];
    }
  }

  /** The `shootingStars` loop of `initStarScene`: a pool of five dormant streaks. */
  method NewPool() returns (pool: seq<ShootingStar>)
    ensures |pool| == PoolSize && Distinct(pool)
    ensures forall i :: 0 <= i < |pool| ==> fresh(pool[i]) && pool[i].View() == Streak(false, 0.0, 0.0, 0.0, 0.0, 0.0, 0.0, 0.0)
  {
    pool := [];
    for i := 0 to PoolSize
      invariant |pool| == i && Distinct(pool)
      invariant forall j :: 0 <= j < i ==> fresh(pool[j]) && pool[j].View() == Streak(false, 0.0, 0.0, 0.0, 0.0, 0.0, 0.0, 0.0)
    {
      var star := new ShootingStar();
      pool := pool + [star];
    }
  }

  /** The `elapsed` a visible frame at `timestamp` computes when the start time was `start`. */
  function Elapsed(start: Option<real>, timestamp: real): real
  {
    timestamp - LatchStart(start, timestamp)
  }

  class Scene {
    var width: nat
    var height: nat
    var backgroundStars: seq<BackgroundStar>
    var textStars: seq<TextStar>
    var shootingStars: seq<ShootingStar>
    var starStartTime: Option<real>
    var lastShootingStarTime: real

    ghost predicate Valid()
      reads this`backgroundStars, this`textStars, this`shootingStars, backgroundStars, textStars, shootingStars
    {
      |backgroundStars| == NumBackgroundStars && |shootingStars| == PoolSize &&
      Distinct(backgroundStars) && Distinct(textStars) && Distinct(shootingStars) &&
      (forall i :: 0 <= i < |backgroundStars| ==> backgroundStars[i].Valid()) &&
      (forall i :: 0 <= i < |textStars| ==> textStars[i].Valid())
    }

    /** One background star per draw, each in the `init` state that draw gives. */
    ghost predicate BackgroundBuilt(ambient: seq<AmbientDraw>)
      reads this, backgroundStars
    {
      |ambient| == |backgroundStars| == NumBackgroundStars &&
      (forall i :: 0 <= i < |ambient| ==> IsAmbientDraw(ambient[i]) && backgroundStars[i].FromDraw(width, height, ambient[i]))
    }

    /**
      One text star per sampled point, the i-th in reveal order spawned at
      point order[i] with the jittered delay of position i.
    */
    ghost predicate TextBuilt(points: seq<Point>, order: seq<nat>, glyph: seq<GlyphDraw>, jitter: seq<real>)
      reads this, textStars
    {
      IsRevealOrder(order, |points|) && |glyph| == |points| && |jitter| == |points| && |textStars| == |points| &&
      (forall i :: 0 <= i < |points| ==>
         IsDraw(jitter[i]) &&
         textStars[i].Spawned(points[order[i]].x as real, points[order[i]].y as real,
                              JitteredDelay(i, |points|, jitter[i]), glyph[i]))
    }

    /** A pool of dormant shooting stars. */
    ghost predicate PoolBuilt()
      reads this, shootingStars
    {
      |shootingStars| == PoolSize &&
      (forall i :: 0 <= i < PoolSize ==> shootingStars[i].View() == Streak(false, 0.0, 0.0, 0.0, 0.0, 0.0, 0.0, 0.0))
    }

    /** The collections `initStarScene` builds from the sampled points of the caption. */
    ghost predicate Built(contextAvailable: bool, image: seq<byte>, order: seq<nat>,
                          ambient: seq<AmbientDraw>, glyph: seq<GlyphDraw>, jitter: seq<real>)
      reads this, backgroundStars, textStars, shootingStars
    {
      BackgroundBuilt(ambient) &&
      TextBuilt(TextPoints(contextAvailable, image, width, height), order, glyph, jitter) &&
      PoolBuilt()
    }

    /**
      What `initStarScene` leaves behind when getImageData throws: the
      background stars are already rebuilt and the text stars cleared, and
      the exception leaves before the pool is touched.
    */
    ghost predicate Interrupted(ambient: seq<AmbientDraw>)
      reads this, backgroundStars
    {
      BackgroundBuilt(ambient) && textStars == []
    }

    /**
      `initStarScene`: rebuild all three collections. `image` is the
      caption rasterised on a surface of the current size, `order` the
      reveal order the random sort produced, and the draws are the
      Math.random values the constructors and the jitter use. `completed`
      is false when the sampler throws, which it does exactly when a 2D
      context exists and the surface has no area.
    */
    method InitStarScene(contextAvailable: bool, image: array<byte>, order: seq<nat>,
                         ambient: seq<AmbientDraw>, glyph: seq<GlyphDraw>, jitter: seq<real>)
      returns (completed: bool)
      requires image.Length == width * height * 4
      requires |ambient| == NumBackgroundStars && forall i :: 0 <= i < |ambient| ==> IsAmbientDraw(ambient[i])
      requires IsRevealOrder(order, |TextPoints(contextAvailable, image[..], width, height)|)
      requires |glyph| == |order| && |jitter| == |order|
      requires forall i :: 0 <= i < |order| ==> IsGlyphDraw(glyph[i]) && IsDraw(jitter[i])
      modifies this`backgroundStars, this`textStars, this`shootingStars
      ensures completed <==> !ImageDataThrows(contextAvailable, width, height)
      ensures completed ==> Valid() && Built(contextAvailable, image[..], order, ambient, glyph, jitter)
      ensures !completed ==> Interrupted(ambient) && shootingStars == old(shootingStars)
      ensures Distinct(backgroundStars) && forall i :: 0 <= i < |backgroundStars| ==> fresh(backgroundStars[i]) && backgroundStars[i].Valid()
      ensures forall i :: 0 <= i < |textStars| ==> fresh(textStars[i])
      ensures completed ==> forall i :: 0 <= i < |shootingStars| ==> fresh(shootingStars[i])
    {
      backgroundStars := NewBackgroundStars(width, height, ambient);
      assert BackgroundBuilt(ambient);
      textStars := [];
      var result := GetStarTextPoints(contextAvailable, image, width, height);
      completed := result.Some?;
      if completed {
        SpawnGlyphsAndPool(result.value, order, glyph, jitter);
      }
    }

    /**
      The second half of `initStarScene`, reached once the sampler has
      returned: the text stars of the sampled points in reveal order, then a
      fresh pool.
    */
    method SpawnGlyphsAndPool(points: seq<Point>, order: seq<nat>, glyph: seq<GlyphDraw>, jitter: seq<real>)
      requires IsRevealOrder(order, |points|) && |glyph| == |points| && |jitter| == |points|
      requires forall i :: 0 <= i < |points| ==> IsGlyphDraw(glyph[i]) && IsDraw(jitter[i])
      modifies this`textStars, this`shootingStars
      ensures TextBuilt(points, order, glyph, jitter) && PoolBuilt()
      ensures Distinct(textStars) && forall i :: 0 <= i < |textStars| ==> fresh(textStars[i]) && textStars[i].Valid()
      ensures Distinct(shootingStars) && forall i :: 0 <= i < |shootingStars| ==> fresh(shootingStars[i])
    {
      textStars := NewTextStars(points, order, glyph, jitter);
      shootingStars := NewPool();
    }

    /**
      `initStarfield` on a surface width x height, up to the listeners: the
      canvas takes the window size, the scene is built, no start time is
      latched yet and the last launch is at time 0. Its closing
      `animateStars(0)` is the first `AnimateStars` call on the new scene.
    */
    constructor (width: nat, height: nat, contextAvailable: bool, image: array<byte>, order: seq<nat>,
                 ambient: seq<AmbientDraw>, glyph: seq<GlyphDraw>, jitter: seq<real>)
      requires !ImageDataThrows(contextAvailable, width, height)
      requires image.Length == width * height * 4
      requires |ambient| == NumBackgroundStars && forall i :: 0 <= i < |ambient| ==> IsAmbientDraw(ambient[i])
      requires IsRevealOrder(order, |TextPoints(contextAvailable, image[..], width, height)|)
      requires |glyph| == |order| && |jitter| == |order|
      requires forall i :: 0 <= i < |order| ==> IsGlyphDraw(glyph[i]) && IsDraw(jitter[i])
      ensures this.width == width && this.height == height
      ensures Valid() && Built(contextAvailable, image[..], order, ambient, glyph, jitter)
      ensures starStartTime == None && lastShootingStarTime == 0.0
    {
      this.width := width;
      this.height := height;
      starStartTime := None;
      lastShootingStarTime := 0.0;
      new;
      var completed := InitStarScene(contextAvailable, image, order, ambient, glyph, jitter);
    }

    /**
      The `resize` handler: the canvas takes the new window size, the scene
      is rebuilt for it and the start time is cleared, so the text reveal
      starts over at the next visible frame. The last launch time is kept.
      When the rebuild throws, the handler stops there: the pool and the
      start time stay as they were.
    */
    method Resize(newWidth: nat, newHeight: nat, contextAvailable: bool, image: array<byte>, order: seq<nat>,
                  ambient: seq<AmbientDraw>, glyph: seq<GlyphDraw>, jitter: seq<real>)
      returns (completed: bool)
      requires Valid()
      requires image.Length == newWidth * newHeight * 4
      requires |ambient| == NumBackgroundStars && forall i :: 0 <= i < |ambient| ==> IsAmbientDraw(ambient[i])
      requires IsRevealOrder(order, |TextPoints(contextAvailable, image[..], newWidth, newHeight)|)
      requires |glyph| == |order| && |jitter| == |order|
      requires forall i :: 0 <= i < |order| ==> IsGlyphDraw(glyph[i]) && IsDraw(jitter[i])
      modifies this`width, this`height, this`backgroundStars, this`textStars, this`shootingStars, this`starStartTime
      ensures width == newWidth && height == newHeight && Valid()
      ensures completed <==> !ImageDataThrows(contextAvailable, newWidth, newHeight)
      ensures completed ==> Built(contextAvailable, image[..], order, ambient, glyph, jitter) && starStartTime == None
      ensures !completed ==> Interrupted(ambient) && shootingStars == old(shootingStars) && starStartTime == old(starStartTime)
      ensures lastShootingStarTime == old(lastShootingStarTime)
    {
      width := newWidth;
      height := newHeight;
      completed := InitStarScene(contextAvailable, image, order, ambient, glyph, jitter);
      if completed {
        starStartTime := None;
      }
    }

    /**
      The `click` handler: the scene is rebuilt on the same surface and the
      start time is cleared. The last launch time is kept. When the rebuild
      throws, the handler stops there: the pool and the start time stay as
      they were.
    */
    method Restart(contextAvailable: bool, image: array<byte>, order: seq<nat>,
                   ambient: seq<AmbientDraw>, glyph: seq<GlyphDraw>, jitter: seq<real>)
      returns (completed: bool)
      requires Valid()
      requires image.Length == width * height * 4
      requires |ambient| == NumBackgroundStars && forall i :: 0 <= i < |ambient| ==> IsAmbientDraw(ambient[i])
      requires IsRevealOrder(order, |TextPoints(contextAvailable, image[..], width, height)|)
      requires |glyph| == |order| && |jitter| == |order|
      requires forall i :: 0 <= i < |order| ==> IsGlyphDraw(glyph[i]) && IsDraw(jitter[i])
      modifies this`backgroundStars, this`textStars, this`shootingStars, this`starStartTime
      ensures Valid()
      ensures completed <==> !ImageDataThrows(contextAvailable, width, height)
      ensures completed ==> Built(contextAvailable, image[..], order, ambient, glyph, jitter) && starStartTime == None
      ensures !completed ==> Interrupted(ambient) && shootingStars == old(shootingStars) && starStartTime == old(starStartTime)
      ensures lastShootingStarTime == old(lastShootingStarTime)
    {
      completed := InitStarScene(contextAvailable, image, order, ambient, glyph, jitter);
      if completed {
        starStartTime := None;
      }
    }

    /**
      The launch step of a frame: when more than 8000 + gap * 4000 ms have
      passed since the last launch, the first dormant member of the pool
      (if any) is activated and the launch time becomes `timestamp`.
      Nothing else changes. `views` and `k` name the pool's streaks and its
      first dormant member on entry.
    */
    method LaunchStreak(ghost views: seq<Streak>, ghost k: Option<nat>, timestamp: real, gap: real, d: LaunchDraw)
      requires Valid() && IsDraw(gap) && IsLaunchDraw(d)
      requires views == Views(shootingStars) && k == FirstInactive(shootingStars)
      modifies this`lastShootingStarTime, shootingStars
      ensures Valid()
      ensures Motions(backgroundStars) == old(Motions(backgroundStars)) && States(textStars) == old(States(textStars))
      ensures var due := old(timestamp - lastShootingStarTime > StreakGap + gap * StreakGapSpread);
              (lastShootingStarTime == if due && k.Some? then timestamp else old(lastShootingStarTime)) &&
              Views(shootingStars) == if due && k.Some? then views[k.value := Launch(width, height, d)] else views
    {
      if timestamp - lastShootingStarTime > StreakGap + gap * StreakGapSpread {
        var inactive := FirstInactive(shootingStars);
        if inactive.Some? {
          shootingStars[inactive.value].Activate(width, height, d);
          lastShootingStarTime := timestamp;
          assert forall j :: 0 <= j < |shootingStars| ==>
            shootingStars[j].View() == views[inactive.value := Launch(width, height, d)][j];
        }
      }
    }

    /** `for (const star of shootingStars) star.update()`. */
    method UpdateShootingStars(headings: seq<Heading>)
      requires Valid() && |headings| == |shootingStars| && forall j :: 0 <= j < |headings| ==> IsHeading(headings[j])
      modifies shootingStars
      ensures Valid()
      ensures Motions(backgroundStars) == old(Motions(backgroundStars)) && States(textStars) == old(States(textStars))
      ensures Views(shootingStars) == AdvanceAll(old(Views(shootingStars)), headings, width, height)
    {
      ghost var before := Views(shootingStars);
      for i := 0 to |shootingStars|
        invariant Valid()
        invariant Motions(backgroundStars) == old(Motions(backgroundStars)) && States(textStars) == old(States(textStars))
        invariant forall j :: 0 <= j < i ==>
          shootingStars[j].View() == Advance(old(shootingStars[j].View()), headings[j].cos, headings[j].sin, width, height)
        invariant forall j :: i <= j < |shootingStars| ==> shootingStars[j].View() == old(shootingStars[j].View())
      {
        shootingStars[i].Update(width, height, headings[i].cos, headings[i].sin);
      }
      assert Views(shootingStars) == AdvanceAll(before, headings, width, height);
    }

    /** `for (const star of backgroundStars) star.update(timestamp)` with the pointer at (mouseX, mouseY). */
    method UpdateBackgroundStars(inputs: seq<AmbientInput>, mouseX: real, mouseY: real)
      requires Valid() && |inputs| == |backgroundStars|
      requires forall j :: 0 <= j < |inputs| ==>
        IsSine(inputs[j].twinkle) &&
        IsDistance(inputs[j].distance, backgroundStars[j].x - mouseX, backgroundStars[j].y - mouseY)
      modifies backgroundStars
      ensures Valid()
      ensures AmbientStepped(backgroundStars, old(Motions(backgroundStars)), inputs, mouseX, mouseY)
    {
      for i := 0 to |backgroundStars|
        invariant Valid()
        invariant forall j :: 0 <= j < i ==>
          backgroundStars[j].SteppedFrom(old(backgroundStars[j].Kinematics()), inputs[j].twinkle, mouseX, mouseY, inputs[j].distance)
        invariant forall j :: i <= j < |backgroundStars| ==> unchanged(backgroundStars[j])
      {
        backgroundStars[i].Update(inputs[i].twinkle, mouseX, mouseY, inputs[i].distance);
      }
    }

    /** `for (const star of textStars) star.update(timestamp, elapsed)` with the pointer at (mouseX, mouseY). */
    method UpdateTextStars(elapsed: real, inputs: seq<GlyphInput>, mouseX: real, mouseY: real)
      requires Valid() && |inputs| == |textStars|
      requires forall j :: 0 <= j < |inputs| ==>
        IsSine(inputs[j].twinkle) && 0.0 < inputs[j].decay <= 1.0 && IsSine(inputs[j].cosine) &&
        IsDistance(inputs[j].distance, textStars[j].x - mouseX, textStars[j].y - mouseY)
      modifies textStars
      ensures Valid()
      ensures GlyphsUpdated(textStars, old(States(textStars)), inputs, elapsed, mouseX, mouseY)
    {
      for i := 0 to |textStars|
        invariant Valid()
        invariant forall j :: 0 <= j < i ==>
          textStars[j].UpdatedFrom(old(textStars[j].State()), inputs[j].twinkle, elapsed, inputs[j].decay, inputs[j].cosine,
                                   mouseX, mouseY, inputs[j].distance)
        invariant forall j :: i <= j < |textStars| ==> unchanged(textStars[j])
      {
        textStars[i].Update(inputs[i].twinkle, elapsed, inputs[i].decay, inputs[i].cosine, mouseX, mouseY, inputs[i].distance);
      }
    }
 
    /**
      The shooting-star part of a visible frame: perhaps launch a dormant
      member of the pool, then move every shooting star. `views` and `k`
      name the pool's streaks and its first dormant member on entry.
    */
    method StepStreaks(ghost views: seq<Streak>, ghost k: Option<nat>,
                       timestamp: real, gap: real, launch: LaunchDraw, headings: seq<Heading>)
      requires Valid() && IsDraw(gap) && IsLaunchDraw(launch) && |headings| == PoolSize
      requires forall j :: 0 <= j < |headings| ==> IsHeading(headings[j])
      requires views == Views(shootingStars) && k == FirstInactive(shootingStars)
      modifies this`lastShootingStarTime, shootingStars
      ensures Valid()
      ensures Motions(backgroundStars) == old(Motions(backgroundStars)) && States(textStars) == old(States(textStars))
      ensures var due := old(timestamp - lastShootingStarTime > StreakGap + gap * StreakGapSpread);
              (lastShootingStarTime == if due && k.Some? then timestamp else old(lastShootingStarTime)) &&
              Views(shootingStars) ==
                AdvanceAll(if due && k.Some? then views[k.value := Launch(width, height, launch)] else views,
                           headings, width, height)
    {
      LaunchStreak(views, k, timestamp, gap, launch);
      UpdateShootingStars(headings);
    }

    /**
      The star part of a visible frame: update the background stars, then
      the text stars. `motions` and `states` name the stars' state on entry.
    */
    method StepGlyphs(ghost motions: seq<Motion>, ghost states: seq<GlyphState>, elapsed: real, mouseX: real, mouseY: real,
                      ambient: seq<AmbientInput>, glyph: seq<GlyphInput>)
      requires Valid() && |ambient| == |backgroundStars| && |glyph| == |textStars|
      requires motions == Motions(backgroundStars) && states == States(textStars)
      requires forall j :: 0 <= j < |ambient| ==>
        IsSine(ambient[j].twinkle) &&
        IsDistance(ambient[j].distance, motions[j].x - mouseX, motions[j].y - mouseY)
      requires forall j :: 0 <= j < |glyph| ==>
        IsSine(glyph[j].twinkle) && 0.0 < glyph[j].decay <= 1.0 && IsSine(glyph[j].cosine) &&
        IsDistance(glyph[j].distance, states[j].motion.x - mouseX, states[j].motion.y - mouseY)
      modifies backgroundStars, textStars
      ensures Valid()
      ensures lastShootingStarTime == old(lastShootingStarTime) && Views(shootingStars) == old(Views(shootingStars))
      ensures AmbientStepped(backgroundStars, motions, ambient, mouseX, mouseY)
      ensures GlyphsUpdated(textStars, states, glyph, elapsed, mouseX, mouseY)
    {
      UpdateBackgroundStars(ambient, mouseX, mouseY);
      UpdateTextStars(elapsed, glyph, mouseX, mouseY);
    }

    /**
      `if (!starStartTime) starStartTime = timestamp; const elapsed =
      timestamp - starStartTime;`. Only the start time changes.
    */
    method LatchStartTime(timestamp: real) returns (elapsed: real)
      modifies this`starStartTime
      ensures starStartTime == Some(LatchStart(old(starStartTime), timestamp))
      ensures elapsed == Elapsed(old(starStartTime), timestamp)
      ensures Views(shootingStars) == old(Views(shootingStars)) && FirstInactive(shootingStars) == old(FirstInactive(shootingStars))
      ensures Motions(backgroundStars) == old(Motions(backgroundStars)) && States(textStars) == old(States(textStars))
    {
      if starStartTime.None? || starStartTime.value == 0.0 {
        starStartTime := Some(timestamp);
      }
      elapsed := timestamp - starStartTime.value;
    }

    /**
      Every star's step in a visible frame, once the start time is latched:
      the shooting stars (`StepStreaks`), then the background and text stars
      (`StepGlyphs`). `views`, `k`, `motions` and `states` name the state
      on entry.
    */
    method StepStars(ghost views: seq<Streak>, ghost k: Option<nat>, ghost motions: seq<Motion>, ghost states: seq<GlyphState>,
                     timestamp: real, elapsed: real, mouseX: real, mouseY: real, gap: real, launch: LaunchDraw,
                     headings: seq<Heading>, ambient: seq<AmbientInput>, glyph: seq<GlyphInput>)
      requires Valid() && IsDraw(gap) && IsLaunchDraw(launch)
      requires |headings| == PoolSize && |ambient| == |backgroundStars| && |glyph| == |textStars|
      requires forall j :: 0 <= j < |headings| ==> IsHeading(headings[j])
      requires views == Views(shootingStars) && k == FirstInactive(shootingStars)
      requires motions == Motions(backgroundStars) && states == States(textStars)
      requires forall j :: 0 <= j < |ambient| ==>
        IsSine(ambient[j].twinkle) &&
        IsDistance(ambient[j].distance, motions[j].x - mouseX, motions[j].y - mouseY)
      requires forall j :: 0 <= j < |glyph| ==>
        IsSine(glyph[j].twinkle) && 0.0 < glyph[j].decay <= 1.0 && IsSine(glyph[j].cosine) &&
        IsDistance(glyph[j].distance, states[j].motion.x - mouseX, states[j].motion.y - mouseY)
      modifies this`lastShootingStarTime, shootingStars, backgroundStars, textStars
      ensures Valid()
      ensures var due := old(timestamp - lastShootingStarTime > StreakGap + gap * StreakGapSpread);
              (lastShootingStarTime == if due && k.Some? then timestamp else old(lastShootingStarTime)) &&
              Views(shootingStars) ==
                AdvanceAll(if due && k.Some? then views[k.value := Launch(width, height, launch)] else views,
                           headings, width, height)
      ensures AmbientStepped(backgroundStars, motions, ambient, mouseX, mouseY)
      ensures GlyphsUpdated(textStars, states, glyph, elapsed, mouseX, mouseY)
    {
      StepStreaks(views, k, timestamp, gap, launch, headings);
      StepGlyphs(motions, states, elapsed, mouseX, mouseY, ambient, glyph);
    }

    /**
      A visible frame: latch the start time (again whenever it is unset or
      0), compute elapsed = timestamp - start, and step every star as
      `StepStreaks` and `StepGlyphs` say.
    */
    method VisibleFrame(timestamp: real, mouseX: real, mouseY: real, gap: real, launch: LaunchDraw,
                        headings: seq<Heading>, ambient: seq<AmbientInput>, glyph: seq<GlyphInput>)
      requires Valid() && IsDraw(gap) && IsLaunchDraw(launch)
      requires |headings| == PoolSize && |ambient| == |backgroundStars| && |glyph| == |textStars|
      requires forall j :: 0 <= j < |headings| ==> IsHeading(headings[j])
      requires forall j :: 0 <= j < |ambient| ==>
        IsSine(ambient[j].twinkle) &&
        IsDistance(ambient[j].distance, backgroundStars[j].x - mouseX, backgroundStars[j].y - mouseY)
      requires forall j :: 0 <= j < |glyph| ==>
        IsSine(glyph[j].twinkle) && 0.0 < glyph[j].decay <= 1.0 && IsSine(glyph[j].cosine) &&
        IsDistance(glyph[j].distance, textStars[j].x - mouseX, textStars[j].y - mouseY)
      modifies this`starStartTime, this`lastShootingStarTime, shootingStars, backgroundStars, textStars
      ensures Valid()
      ensures starStartTime == Some(LatchStart(old(starStartTime), timestamp))
      ensures var due := old(timestamp - lastShootingStarTime > StreakGap + gap * StreakGapSpread);
              var k := old(FirstInactive(shootingStars));
              (lastShootingStarTime == if due && k.Some? then timestamp else old(lastShootingStarTime)) &&
              Views(shootingStars) ==
                AdvanceAll(if due && k.Some? then old(Views(shootingStars))[k.value := Launch(width, height, launch)]
                           else old(Views(shootingStars)), headings, width, height)
      ensures AmbientStepped(backgroundStars, old(Motions(backgroundStars)), ambient, mouseX, mouseY)
      ensures GlyphsUpdated(textStars, old(States(textStars)), glyph, Elapsed(old(starStartTime), timestamp), mouseX, mouseY)
    {
      var elapsed := LatchStartTime(timestamp);
      StepStars(old(Views(shootingStars)), old(FirstInactive(shootingStars)), old(Motions(backgroundStars)), old(States(textStars)),
                timestamp, elapsed, mouseX, mouseY, gap, launch, headings, ambient, glyph);
    }

    /**
      `animateStars(timestamp)`: a hidden frame changes nothing; a visible
      one is `VisibleFrame`.
    */
    method AnimateStars(visible: bool, timestamp: real, mouseX: real, mouseY: real, gap: real, launch: LaunchDraw,
                        headings: seq<Heading>, ambient: seq<AmbientInput>, glyph: seq<GlyphInput>)
      requires Valid() && IsDraw(gap) && IsLaunchDraw(launch)
      requires |headings| == PoolSize && |ambient| == |backgroundStars| && |glyph| == |textStars|
      requires forall j :: 0 <= j < |headings| ==> IsHeading(headings[j])
      requires forall j :: 0 <= j < |ambient| ==>
        IsSine(ambient[j].twinkle) &&
        IsDistance(ambient[j].distance, backgroundStars[j].x - mouseX, backgroundStars[j].y - mouseY)
      requires forall j :: 0 <= j < |glyph| ==>
        IsSine(glyph[j].twinkle) && 0.0 < glyph[j].decay <= 1.0 && IsSine(glyph[j].cosine) &&
        IsDistance(glyph[j].distance, textStars[j].x - mouseX, textStars[j].y - mouseY)
      modifies this`starStartTime, this`lastShootingStarTime, shootingStars, backgroundStars, textStars
      ensures Valid()
      ensures !visible ==> starStartTime == old(starStartTime) && lastShootingStarTime == old(lastShootingStarTime)
      ensures !visible ==> forall j :: 0 <= j < |shootingStars| ==> unchanged(shootingStars[j])
      ensures !visible ==> forall j :: 0 <= j < |backgroundStars| ==> unchanged(backgroundStars[j])
      ensures !visible ==> forall j :: 0 <= j < |textStars| ==> unchanged(textStars[j])
      ensures visible ==> starStartTime == Some(LatchStart(old(starStartTime), timestamp))
      ensures visible ==>
        var due := old(timestamp - lastShootingStarTime > StreakGap + gap * StreakGapSpread);
        var k := old(FirstInactive(shootingStars));
        (lastShootingStarTime == if due && k.Some? then timestamp else old(lastShootingStarTime)) &&
        Views(shootingStars) ==
          AdvanceAll(if due && k.Some? then old(Views(shootingStars))[k.value := Launch(width, height, launch)]
                     else old(Views(shootingStars)), headings, width, height)
      ensures visible ==> AmbientStepped(backgroundStars, old(Motions(backgroundStars)), ambient, mouseX, mouseY)
      ensures visible ==> GlyphsUpdated(textStars, old(States(textStars)), glyph, Elapsed(old(starStartTime), timestamp), mouseX, mouseY)
    {
      if visible {
        VisibleFrame(timestamp, mouseX, mouseY, gap, launch, headings, ambient, glyph);
      }
    }
  }
}
