/**
  The sprite animation clock of src/texture_handling/animationManager.cpp. Each animation
  shows `steps` frames, each for `durationMs`; a looping animation with a pause holds its last
  frame for `pauseMs` before starting over. Time is kept in microseconds, as sf::Time does,
  while every comparison and every carry-over goes through whole milliseconds, as
  `asMilliseconds` and `sf::milliseconds` do.
 */
module Animation {

  /** ANM_TYPE: the `type` attribute of the animation description, cast to the enumeration. */
  type AnimType = int

  /** WAIT, the animation every manager starts with. */
  const WAIT: AnimType := 0

  /** One entry of the animation table. `pauseMs` is 0 for an animation without a pause. */
  datatype AnimInfo = AnimInfo(steps: int, orientations: int, durationMs: int, pauseMs: int,
                               loop: bool, texLayer: nat)

  /** What update() needs of an entry: at least one frame, a frame length it can divide by,
      and a pause that is either absent or a positive number of milliseconds. */
  predicate InfoOk(a: AnimInfo) {
    0 < a.steps && 0 < a.durationMs && 0 <= a.pauseMs
  }

  /** C++ integer division, which truncates toward zero. */
  function TruncDiv(n: int, d: int): (q: int)
    requires 0 < d
    ensures q != 0 <==> n >= d || n <= -d
  {
    if 0 <= n then DivZero(n, d); n / d else DivZero(-n, d); -((-n) / d)
  }

  lemma DivZero(n: int, d: int)
    requires 0 <= n && 0 < d
    ensures n / d == 0 <==> n < d
  {
    if n >= d {
      assert n == (n / d) * d + n % d;
    }
  }

  /** sf::Time::asMilliseconds on a time in microseconds: the whole milliseconds in it,
      rounded toward zero. */
  function MsOf(us: int): (ms: int)
    ensures 0 <= us ==> 0 <= ms && ms * 1000 <= us
  {
    TruncDiv(us, 1000)
  }

  /** The last frame of an animation with a pause is held for the pause instead of the frame
      length. */
  predicate Held(sprite: nat, a: AnimInfo) {
    sprite == a.steps - 1 && a.pauseMs != 0
  }

  /** How long frame `sprite` stays on screen, in milliseconds. */
  function FrameMs(sprite: nat, a: AnimInfo): int {
    if Held(sprite, a) then a.pauseMs else a.durationMs
  }

  /** Whether frame `sprite` ever gives way to the next one: only the held last frame of an
      animation that does not loop stays for good. */
  predicate Moves(sprite: nat, a: AnimInfo) {
    !Held(sprite, a) || a.loop
  }

  /** One call to update() once the elapsed time has been added: the new frame and the new
      accumulated time in microseconds. */
  function Advance(sprite: nat, acc: int, a: AnimInfo): (r: (nat, int))
    requires InfoOk(a) && sprite < a.steps
    ensures r.0 < a.steps
    ensures r == (sprite, acc) || r.0 == (sprite + 1) % a.steps
    ensures 0 <= acc ==> (r == (sprite, acc) <==> !Moves(sprite, a) || MsOf(acc) < FrameMs(sprite, a))
    ensures 0 <= acc && r != (sprite, acc) ==>
      r.0 == (sprite + 1) % a.steps && r.1 == (MsOf(acc) - FrameMs(sprite, a)) * 1000
    ensures 0 <= acc ==> 0 <= r.1 <= acc
  {
    var ms := MsOf(acc);
    if sprite == a.steps - 1 && a.pauseMs != 0 then
      if a.loop && TruncDiv(ms, a.pauseMs) != 0 then
        (0, (ms - a.pauseMs) * 1000)
      else
        (sprite, acc)
    else if TruncDiv(ms, a.durationMs) != 0 then
      ((sprite + 1) % a.steps, (ms - a.durationMs) * 1000)
    else
      (sprite, acc)
  }

  /** A run of update() calls with the given elapsed times, in microseconds. */
  function Play(f: (nat, int), a: AnimInfo, elapsed: seq<int>): (r: (nat, int))
    requires InfoOk(a) && f.0 < a.steps
    ensures r.0 < a.steps
    decreases |elapsed|
  {
    if elapsed == [] then f
    else Play(Advance(f.0, f.1 + elapsed[0], a), a, elapsed[1..])
  }

  /** getAnimationTime: the time from the first frame to the last one, in microseconds. */
  function AnimationTimeUs(a: AnimInfo): int {
    (a.steps - 1) * a.durationMs * 1000
  }

  /** A frame length given in milliseconds reads back unchanged in milliseconds. */
  lemma WholeMs(ms: int)
    requires 0 <= ms
    ensures MsOf(ms * 1000) == ms
  {
  }

  /** One update of exactly one frame length, with nothing accumulated, on a frame that is not
      held, shows the next frame and carries nothing over. */
  lemma Tick(a: AnimInfo, k: nat)
    requires InfoOk(a) && k < a.steps && !Held(k, a)
    ensures Advance(k, a.durationMs * 1000, a) == (if k + 1 == a.steps then 0 else k + 1, 0)
  {
    WholeMs(a.durationMs);
  }

  /** `n` updates of `us` microseconds each. The source has no such operation: this builds the
      evenly spaced update sequences of the Play lemmas below. */
  function Repeat(us: int, n: nat): (r: seq<int>)
    ensures |r| == n
  {
    if n == 0 then [] else [us] + Repeat(us, n - 1)
  }

  /** Updates of exactly one frame length each, starting on frame `k` with nothing
      accumulated, step one frame at a time and carry nothing over. Past the last frame this
      holds only for an animation without a pause, which wraps round to frame 0. */
  lemma {:induction false} PlayEvenly(a: AnimInfo, k: nat, n: nat)
    requires InfoOk(a) && k < a.steps
    requires k + n < a.steps || (k + n == a.steps && a.pauseMs == 0)
    ensures Play((k, 0), a, Repeat(a.durationMs * 1000, n)) == (if k + n == a.steps then 0 else k + n, 0)
    decreases n
  {
    if n != 0 {
      var es := Repeat(a.durationMs * 1000, n);
      assert es[0] == a.durationMs * 1000 && es[1..] == Repeat(a.durationMs * 1000, n - 1);
      Tick(a, k);
      assert Play((k, 0), a, es) == Play((if k + 1 == a.steps then 0 else k + 1, 0), a, es[1..]);
      if k + 1 == a.steps {
        assert es[1..] == [];
      } else {
        PlayEvenly(a, k + 1, n - 1);
      }
    }
  }

  /** Fed one frame length per update, an animation started from scratch reaches its last
      frame after steps - 1 updates, that is after getAnimationTime. */
  lemma ReachesLastFrame(a: AnimInfo)
    requires InfoOk(a)
    ensures var es := Repeat(a.durationMs * 1000, a.steps - 1);
      Play((0, 0), a, es) == (a.steps - 1, 0) && |es| * a.durationMs * 1000 == AnimationTimeUs(a)
  {
    PlayEvenly(a, 0, a.steps - 1);
  }

  /** An animation without a pause starts over after `steps` frame lengths. */
  lemma CyclesWithoutPause(a: AnimInfo)
    requires InfoOk(a) && a.pauseMs == 0
    ensures Play((0, 0), a, Repeat(a.durationMs * 1000, a.steps)) == (0, 0)
  {
    PlayEvenly(a, 0, a.steps);
  }

  /** A looping animation with a pause stays on its last frame until the pause has elapsed,
      then goes back to frame 0. */
  lemma PauseHoldsLastFrame(a: AnimInfo, acc: int)
    requires InfoOk(a) && a.loop && 0 < a.pauseMs && 0 <= acc
    ensures Advance(a.steps - 1, acc, a).0 == (if MsOf(acc) < a.pauseMs then a.steps - 1 else 0)
  {
  }

  class AnimationManager {
    var currentAnim: AnimType
    var currentSprite: nat
    /** Set by the owner of the manager when its entity dies. */
    var dead: bool
    /** The time accumulated since the current frame was shown, in microseconds. */
    var alreadyElapsed: int
    const animInfo: map<AnimType, AnimInfo>

    ghost predicate Valid()
      reads this
    {
      currentAnim in animInfo &&
      (forall t | t in animInfo :: InfoOk(animInfo[t])) &&
      InfoOk(animInfo[currentAnim]) && currentSprite < animInfo[currentAnim].steps
    }

    /** The manager starts on the first frame of WAIT, alive, with no time accumulated. */
    constructor(info: map<AnimType, AnimInfo>)
      requires WAIT in info && forall t | t in info :: InfoOk(info[t])
      ensures Valid()
      ensures animInfo == info && currentAnim == WAIT && currentSprite == 0 && !dead && alreadyElapsed == 0
    {
      currentAnim := WAIT;
      currentSprite := 0;
      dead := false;
      alreadyElapsed := 0;
      animInfo := info;
    }

    /** launchAnimation(type): a living entity switches to `t`, from its first frame unless it
        was already playing `t`; a dead one keeps its animation. The texture layer of `t` is
        returned either way. */
    method LaunchAnimation(t: AnimType) returns (layer: nat)
      requires Valid() && t in animInfo
      modifies this`currentAnim, this`currentSprite
      ensures Valid() && layer == animInfo[t].texLayer
      ensures old(dead) ==> currentAnim == old(currentAnim) && currentSprite == old(currentSprite)
      ensures !old(dead) ==> currentAnim == t && currentSprite == if old(currentAnim) == t then old(currentSprite) else 0
    {
      if !dead {
        if currentAnim != t {
          currentAnim := t;
          currentSprite := 0;
        }
      }
      layer := animInfo[t].texLayer;
    }

    /** update(elapsed, nOrientation) with `elapsedUs` microseconds elapsed. */
    method Update(elapsedUs: int, nOrientation: real)
      requires Valid()
      modifies this`currentSprite, this`alreadyElapsed
      ensures Valid()
      ensures (currentSprite, alreadyElapsed) == Advance(old(currentSprite), old(alreadyElapsed) + elapsedUs, animInfo[currentAnim])
    {
      var a := animInfo[currentAnim];
      alreadyElapsed := alreadyElapsed + elapsedUs;
      if currentSprite == a.steps - 1 && a.pauseMs != 0 {
        if a.loop {
          if TruncDiv(MsOf(alreadyElapsed), a.pauseMs) != 0 {
            currentSprite := 0;
            alreadyElapsed := (MsOf(alreadyElapsed) - a.pauseMs) * 1000;
          }
        }
      } else {
        if TruncDiv(MsOf(alreadyElapsed), a.durationMs) != 0 {
          currentSprite := (currentSprite + 1) % a.steps;
          alreadyElapsed := (MsOf(alreadyElapsed) - a.durationMs) * 1000;
        }
      }
    }

    /** getAnimationTime(type), in microseconds. */
    function GetAnimationTime(t: AnimType): (us: int)
      requires t in animInfo && InfoOk(animInfo[t])
      ensures 0 <= us && us == AnimationTimeUs(animInfo[t])
    {
      (animInfo[t].steps - 1) * animInfo[t].durationMs * 1000
    }
  }
}
