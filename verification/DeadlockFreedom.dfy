/** Any set of transactions that take their row locks in the documented order, under any schedule. */
module DeadlockFreedom {
  import opened Prelude
  import opened RowLocks

  /** A transaction locks the keys of `plan` one by one, then finishes and releases them all. */
  datatype Progress = Progress(plan: seq<Key>, held: nat)
  {
    ghost predicate Holds(key: Key) {
      exists i :: 0 <= i < held && i < |plan| && plan[i] == key
    }
  }

  /** Running transactions only: a finished one has left the map. */
  type System = map<Name, Progress>

  ghost predicate IsFree(s: System, key: Key) {
    forall t <- s :: !s[t].Holds(key)
  }

  /** The transaction can take its next lock, or has them all and can finish. */
  ghost predicate CanStep(s: System, t: Name)
    requires t in s
  {
    s[t].held >= |s[t].plan| || IsFree(s, s[t].plan[s[t].held])
  }

  ghost function StepOf(s: System, t: Name): System {
    if t !in s || !CanStep(s, t) then s
    else if s[t].held >= |s[t].plan| then s - {t}
    else s[t := s[t].(held := s[t].held + 1)]
  }

  /** A schedule starts transactions whose plans keep the order, and lets them step. */
  datatype Event = Start(t: Name, plan: seq<Key>) | Go(t: Name)

  ghost function Apply(s: System, e: Event): System {
    match e
    case Start(t, plan) => if t !in s && Ordered(plan) then s[t := Progress(plan, 0)] else s
    case Go(t) => StepOf(s, t)
  }

  ghost function Run(s: System, events: seq<Event>): System
    decreases |events|
  {
    if events == [] then s else Run(Apply(s, events[0]), events[1..])
  }

  ghost predicate Sound(s: System) {
    && (forall t <- s :: Ordered(s[t].plan) && s[t].held <= |s[t].plan|)
    && (forall t <- s, u <- s, key :: s[t].Holds(key) && s[u].Holds(key) ==> t == u)
  }

  /** What a transaction holds after a step it held before, or has just found free. */
  lemma HoldsUnlessTaken(s: System, e: Event, t: Name, key: Key)
    requires t in Apply(s, e) && Apply(s, e)[t].Holds(key)
    ensures t in s && (s[t].Holds(key) || (IsFree(s, key) && e == Go(t)))
  {
    var i :| 0 <= i < Apply(s, e)[t].held && i < |Apply(s, e)[t].plan| && Apply(s, e)[t].plan[i] == key;
    if i < s[t].held {
      assert s[t].plan[i] == key;
    }
  }

  lemma ApplyKeepsSound(s: System, e: Event)
    requires Sound(s)
    ensures Sound(Apply(s, e))
  {
    var s' := Apply(s, e);
    forall a <- s', b <- s', key | a != b && s'[a].Holds(key) && s'[b].Holds(key)
      ensures false
    {
      HoldsUnlessTaken(s, e, a, key);
      HoldsUnlessTaken(s, e, b, key);
    }
  }

  lemma {:induction false} RunKeepsSound(s: System, events: seq<Event>)
    requires Sound(s)
    ensures Sound(Run(s, events))
    decreases |events|
  {
    if events != [] {
      ApplyKeepsSound(s, events[0]);
      RunKeepsSound(Apply(s, events[0]), events[1..]);
    }
  }

  /** In every reachable state with an unfinished transaction, some transaction can step. */
  lemma NoDeadlock(events: seq<Event>, waiting: Name) returns (t: Name)
    requires waiting in Run(map[], events)
    ensures t in Run(map[], events) && CanStep(Run(map[], events), t)
  {
    var s := Run(map[], events);
    RunKeepsSound(map[], events);
    var wants := map u | u in s :: if s[u].held < |s[u].plan| then Some(s[u].plan[s[u].held]) else None;
    var holder := Holders(s);
    var above := set key <- holder | wants[waiting].Some? && !Before(key, wants[waiting].value);
    t := SomeoneProceeds(s.Keys, wants, holder, waiting, above);
  }

  ghost function Holders(s: System): (holder: map<Key, Name>)
    requires Sound(s)
    ensures forall t <- s, key :: s[t].Holds(key) ==> key in holder
    ensures forall key <- holder :: holder[key] in s && s[holder[key]].Holds(key)
  {
    var locked := set t <- s, i | 0 <= i < s[t].held :: s[t].plan[i];
    map key | key in locked :: HolderOf(s, key)
  }

  ghost function HolderOf(s: System, key: Key): (t: Name)
    requires exists u <- s :: s[u].Holds(key)
    ensures t in s && s[t].Holds(key)
  {
    var t :| t in s && s[t].Holds(key);
    t
  }
}
