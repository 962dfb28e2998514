/** The signing secret shared by all replicas: whoever stores one first wins, and nobody replaces it. */
module Secrets {
  import opened Base
  import opened Hex

  type Replica = nat

  datatype SecretError = GenerateFailed | StoreFailed | ReadFailed | BadHex(error: DecodeError)

  type Answer = Result<seq<byte>, SecretError>

  function Decoded(text: string): Answer {
    match Decode(text)
    case Ok(b) => Ok(b)
    case Err(e) => Err(BadHex(e))
  }

  /** Where a replica stands in GetOrCreateJWTSecret. */
  datatype Stage =
    | Start
    | Missing
    | Generated(secret: seq<byte>)
    | Inserted
    | Done(answer: Answer)

  /** The settings row, the replicas, and every secret proposed so far. */
  datatype World = World(stored: Option<string>, stages: map<Replica, Stage>, proposed: set<seq<byte>>)

  datatype Step =
    | Read(replica: Replica, fails: bool)
    | Generate(replica: Replica, secret: seq<byte>, fails: bool)
    | InsertIfAbsent(replica: Replica, fails: bool)
    | ReRead(replica: Replica, fails: bool)
    | Restart(replica: Replica)

  function StageOf(w: World, r: Replica): Stage {
    if r in w.stages then w.stages[r] else Start
  }

  function At(w: World, r: Replica, s: Stage): World {
    w.(stages := w.stages[r := s])
  }

  predicate Enabled(w: World, s: Step) {
    match s
    case Read(r, _) => StageOf(w, r).Start?
    case Generate(r, b, _) => StageOf(w, r).Missing? && |b| == 32
    case InsertIfAbsent(r, _) => StageOf(w, r).Generated?
    case ReRead(r, _) => StageOf(w, r).Inserted?
    case Restart(_) => true
  }

  function Next(w: World, s: Step): World
    requires Enabled(w, s)
  {
    match s
    case Read(r, fails) =>
      // any error of the first read, not only a missing row, leads to the slow path
      if fails || w.stored.None? then At(w, r, Missing) else At(w, r, Done(Decoded(w.stored.value)))
    case Generate(r, b, fails) =>
      if fails then At(w, r, Done(Err(GenerateFailed))) else At(w, r, Generated(b)).(proposed := w.proposed + {b})
    case InsertIfAbsent(r, fails) =>
      if fails then At(w, r, Done(Err(StoreFailed)))
      else
        var mine := Encode(StageOf(w, r).secret);
        At(w, r, Inserted).(stored := if w.stored.None? then Some(mine) else w.stored)
    case ReRead(r, fails) =>
      if fails || w.stored.None? then At(w, r, Done(Err(ReadFailed))) else At(w, r, Done(Decoded(w.stored.value)))
    case Restart(r) =>
      At(w, r, Start)
  }

  function Run(w: World, steps: seq<Step>): Option<World>
    decreases |steps|
  {
    if steps == [] then Some(w)
    else if Enabled(w, steps[0]) then Run(Next(w, steps[0]), steps[1..])
    else None
  }

  ghost predicate Inv(w: World, initial: Option<string>) {
    && (initial.Some? ==> w.stored == initial)
    && (initial.None? && w.stored.Some? ==> exists b :: b in w.proposed && w.stored == Some(Encode(b)))
    && (forall r :: r in w.stages && w.stages[r].Generated? ==> w.stages[r].secret in w.proposed)
    && (forall r :: r in w.stages && w.stages[r].Inserted? ==> w.stored.Some?)
    && (forall r :: r in w.stages && w.stages[r].Done? && w.stages[r].answer.Ok? ==>
          w.stored.Some? && Decoded(w.stored.value) == w.stages[r].answer)
  }

  lemma Preserved(w: World, s: Step, initial: Option<string>)
    requires Inv(w, initial) && Enabled(w, s)
    ensures Inv(Next(w, s), initial)
    ensures w.stored.Some? ==> Next(w, s).stored == w.stored
    ensures w.proposed <= Next(w, s).proposed
  {
    var w' := Next(w, s);
    if s.InsertIfAbsent? && !s.fails && w.stored.None? {
      assert StageOf(w, s.replica).secret in w'.proposed;
    }
    if w.stored.Some? && initial.None? {
      var b :| b in w.proposed && w.stored == Some(Encode(b));
      assert b in w'.proposed;
    }
  }

  lemma {:induction false} RunInv(w: World, steps: seq<Step>, initial: Option<string>)
    requires Inv(w, initial) && Run(w, steps).Some?
    ensures Inv(Run(w, steps).value, initial)
    ensures w.stored.Some? ==> Run(w, steps).value.stored == w.stored
    decreases |steps|
  {
    if steps != [] {
      Preserved(w, steps[0], initial);
      RunInv(Next(w, steps[0]), steps[1..], initial);
    }
  }

  lemma {:induction false} RunAppend(w: World, first: seq<Step>, second: seq<Step>)
    ensures Run(w, first + second) ==
            match Run(w, first)
            case None => None
            case Some(mid) => Run(mid, second)
    decreases |first|
  {
    if first == [] {
      assert first + second == second;
    } else if Enabled(w, first[0]) {
      assert (first + second)[1..] == first[1..] + second;
      RunAppend(Next(w, first[0]), first[1..], second);
    }
  }

  /**
   Agreement. In every run of any number of replicas, whatever fails or restarts, everyone who gets a secret gets the
   same one: the one stored to begin with, or else one that some replica proposed. Once stored it never changes.
   */
  lemma SecretAgreement(initial: Option<string>, steps: seq<Step>, later: seq<Step>, r: Replica, q: Replica)
    requires Run(World(initial, map[], {}), steps + later).Some?
    ensures Run(World(initial, map[], {}), steps).Some?
    ensures var mid := Run(World(initial, map[], {}), steps).value;
            var end := Run(World(initial, map[], {}), steps + later).value;
            && (mid.stored.Some? ==> end.stored == mid.stored)
            && (StageOf(mid, r).Done? && StageOf(mid, r).answer.Ok? &&
                StageOf(end, q).Done? && StageOf(end, q).answer.Ok? ==>
                  && StageOf(mid, r).answer == StageOf(end, q).answer
                  && (initial.Some? ==> Decoded(initial.value) == StageOf(mid, r).answer)
                  && (initial.None? ==> StageOf(mid, r).answer.value in mid.proposed))
  {
    var start := World(initial, map[], {});
    RunAppend(start, steps, later);
    RunInv(start, steps, initial);
    var mid := Run(start, steps).value;
    RunInv(mid, later, initial);
    if initial.None? && mid.stored.Some? {
      var b :| b in mid.proposed && mid.stored == Some(Encode(b));
      RoundTrip(b);
    }
  }

  /** One replica alone stores what it generated, or takes what is there. */
  lemma SoloCall(w: World, r: Replica, b: seq<byte>)
    requires StageOf(w, r).Start? && |b| == 32
    ensures w.stored.Some? ==>
              var end := Run(w, [Read(r, false)]);
              end.Some? && end.value.stored == w.stored && StageOf(end.value, r) == Done(Decoded(w.stored.value))
    ensures w.stored.None? ==>
              var end := Run(w, [Read(r, false), Generate(r, b, false), InsertIfAbsent(r, false), ReRead(r, false)]);
              end.Some? && end.value.stored == Some(Encode(b)) && StageOf(end.value, r) == Done(Ok(b))
  {
    var s := [Read(r, false), Generate(r, b, false), InsertIfAbsent(r, false), ReRead(r, false)];
    var w1 := Next(w, s[0]);
    if w.stored.Some? {
      assert Run(w, [s[0]]) == Run(w1, [s[0]][1..]);
    } else {
      RoundTrip(b);
      var w2 := Next(w1, s[1]);
      var w3 := Next(w2, s[2]);
      assert Run(w, s) == Run(w1, s[1..]) && s[1..][0] == s[1] && s[1..][1..] == s[2..];
      assert Run(w1, s[1..]) == Run(w2, s[2..]) && s[2..][0] == s[2] && s[2..][1..] == s[3..];
      assert Run(w2, s[2..]) == Run(w3, s[3..]) && s[3..][0] == s[3] && s[3..][1..] == [];
      assert Run(w3, s[3..]) == Run(Next(w3, s[3]), []);
    }
  }

  /** A failing first read is no error: the call goes on, and still returns the stored secret without replacing it. */
  lemma FailedReadGoesOn(w: World, r: Replica, b: seq<byte>)
    requires StageOf(w, r).Start? && |b| == 32 && w.stored.Some?
    ensures var end := Run(w, [Read(r, true), Generate(r, b, false), InsertIfAbsent(r, false), ReRead(r, false)]);
            end.Some? && end.value.stored == w.stored && StageOf(end.value, r) == Done(Decoded(w.stored.value))
  {
    var s := [Read(r, true), Generate(r, b, false), InsertIfAbsent(r, false), ReRead(r, false)];
    var w1 := Next(w, s[0]);
    var w2 := Next(w1, s[1]);
    var w3 := Next(w2, s[2]);
    assert Run(w, s) == Run(w1, s[1..]) && s[1..][0] == s[1] && s[1..][1..] == s[2..];
    assert Run(w1, s[1..]) == Run(w2, s[2..]) && s[2..][0] == s[2] && s[2..][1..] == s[3..];
    assert Run(w2, s[2..]) == Run(w3, s[3..]) && s[3..][0] == s[3] && s[3..][1..] == [];
    assert Run(w3, s[3..]) == Run(Next(w3, s[3]), []);
  }

  /** Any later failure ends the call with its own error, and leaves the stored secret as it is. */
  lemma LaterFailuresEnd(w: World, s: Step)
    requires Enabled(w, s) && !s.Restart? && !s.Read? && s.fails
    ensures Next(w, s).stored == w.stored
    ensures StageOf(Next(w, s), s.replica) ==
            Done(Err(if s.Generate? then GenerateFailed else if s.InsertIfAbsent? then StoreFailed else ReadFailed))
  {
  }

  // ------------------------------------------------------- one undisturbed call

  class Settings {
    var jwtSecret: Option<string>

    constructor ()
      ensures jwtSecret == None
    {
      jwtSecret := None;
    }

    /** What the random generator yields; None if it fails. */
    method GetOrCreateJWTSecret(random: Option<seq<byte>>) returns (r: Answer)
      requires random.Some? ==> |random.value| == 32
      modifies this
      ensures old(jwtSecret).Some? ==> jwtSecret == old(jwtSecret) && r == Decoded(jwtSecret.value)
      ensures old(jwtSecret).None? && random.Some? ==> jwtSecret == Some(Encode(random.value)) && r == Ok(random.value)
      ensures old(jwtSecret).None? && random.None? ==> jwtSecret == None && r == Err(GenerateFailed)
    {
      var hexSecret := "";
      if jwtSecret.Some? {
        hexSecret := jwtSecret.value;
        return Decoded(hexSecret);
      }
      if random.None? {
        return Err(GenerateFailed);
      }
      hexSecret := Encode(random.value);
      if jwtSecret.None? {
        jwtSecret := Some(hexSecret);
      }
      hexSecret := jwtSecret.value;
      RoundTrip(random.value);
      return Decoded(hexSecret);
    }
  }
}
