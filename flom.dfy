/** The flood page for children: a fact that changes at the press of a
    button, and a one-question quiz that earns a star for the right answer. */
module Flom {
  import opened Wrappers

  datatype Svar = A | B | C

  /** The right answer. */
  const Riktig: Svar := B

  const Fakta: seq<string> := [
    "Flom kan komme av mye regn på kort tid.",
    "Elver kan vokse når snø smelter fort om våren.",
    "Trær og gress kan bremse vannet og hjelpe mot flom.",
    "Ikke gå gjennom dype vannpytter – de kan være farlige."
  ]

  /** The page's four pieces of state: stars earned, the fact shown, the
      selected answer (`null` is None) and whether the answer is locked. */
  datatype QuizState = QuizState(stjerner: nat, faktaIdx: nat, valg: Option<Svar>, svarLaast: bool)

  ghost predicate ValidState(q: QuizState) {
    q.faktaIdx < |Fakta|
  }

  /** `nesteFakta`: the next fact, back to the first after the last. */
  function NesteFakta(q: QuizState): (r: QuizState)
    ensures r.faktaIdx < |Fakta|
    ensures q.faktaIdx + 1 < |Fakta| ==> r.faktaIdx == q.faktaIdx + 1
    ensures q.faktaIdx == |Fakta| - 1 ==> r.faktaIdx == 0
    ensures r.stjerner == q.stjerner && r.valg == q.valg && r.svarLaast == q.svarLaast
  {
    q.(faktaIdx := (q.faktaIdx + 1) % |Fakta|)
  }

  /** `setValg(s)`, what a radio button does when it is clicked. */
  function Velg(q: QuizState, s: Svar): (r: QuizState)
    ensures r.valg == Some(s)
    ensures r.stjerner == q.stjerner && r.faktaIdx == q.faktaIdx && r.svarLaast == q.svarLaast
  {
    q.(valg := Some(s))
  }

  /** `bekreft`: with no answer selected nothing happens; otherwise the answer
      is locked, and a star is added exactly when it is the right one. */
  function Bekreft(q: QuizState): (r: QuizState)
    ensures q.valg.None? ==> r == q
    ensures q.valg.Some? ==> r.svarLaast && r.valg == q.valg && r.faktaIdx == q.faktaIdx
    ensures q.valg.Some? ==> (r.stjerner == q.stjerner + 1 <==> q.valg == Some(Riktig))
    ensures r.stjerner == q.stjerner || r.stjerner == q.stjerner + 1
  {
    if q.valg.None? then q
    else q.(svarLaast := true, stjerner := if q.valg == Some(Riktig) then q.stjerner + 1 else q.stjerner)
  }

  /** `nullstill`: the selection is cleared and the answer unlocked; the
      stars stay. */
  function Nullstill(q: QuizState): (r: QuizState)
    ensures r.valg.None? && !r.svarLaast
    ensures r.stjerner == q.stjerner && r.faktaIdx == q.faktaIdx
  {
    q.(valg := None, svarLaast := false)
  }

  /** The page's state held in place, updated by its handlers. */
  class Quiz {
    var stjerner: nat
    var faktaIdx: nat
    var valg: Option<Svar>
    var svarLaast: bool

    function State(): QuizState
      reads this
    {
      QuizState(stjerner, faktaIdx, valg, svarLaast)
    }

    ghost predicate Valid()
      reads this
    {
      ValidState(State())
    }

    /** The initial `useState` values. */
    constructor()
      ensures Valid()
      ensures State() == QuizState(0, 0, None, false)
    {
      stjerner := 0;
      faktaIdx := 0;
      valg := None;
      svarLaast := false;
    }

    /** The fact shown, `fakta[faktaIdx]`. */
    function Fact(): (s: string)
      reads this
      requires Valid()
      ensures s in Fakta
    {
      Fakta[faktaIdx]
    }

    method OnNesteFakta()
      modifies this
      ensures Valid()
      ensures State() == NesteFakta(old(State()))
    {
      faktaIdx := (faktaIdx + 1) % |Fakta|;
    }

    method OnVelg(s: Svar)
      modifies this
      ensures Valid() == old(Valid())
      ensures State() == Velg(old(State()), s)
    {
      valg := Some(s);
    }

    method OnBekreft()
      modifies this
      ensures Valid() == old(Valid())
      ensures State() == Bekreft(old(State()))
      ensures stjerner >= old(stjerner)
    {
      if valg.None? {
        return;
      }
      svarLaast := true;
      if valg == Some(Riktig) {
        stjerner := stjerner + 1;
      }
    }

    method OnNullstill()
      modifies this
      ensures Valid() == old(Valid())
      ensures State() == Nullstill(old(State()))
    {
      valg := None;
      svarLaast := false;
    }
  }

  /** What the user can do on the page. While the answer is locked the radio
      buttons are disabled and the answer button is replaced by "Prøv på
      nytt"; the answer button is disabled while nothing is selected. */
  datatype Event = NextFact | Choose(s: Svar) | Confirm | TryAgain

  /** One event: the fact index stays valid, the stars never drop and rise
      by at most one, and stars plus open rounds grow only on "Prøv på nytt". */
  function Step(q: QuizState, e: Event): (r: QuizState)
    ensures ValidState(q) ==> ValidState(r)
    ensures q.stjerner <= r.stjerner <= q.stjerner + 1
    ensures r.stjerner + Open(r) <= q.stjerner + Open(q) + (if e == TryAgain then 1 else 0)
  {
    match e
    case NextFact => NesteFakta(q)
    case Choose(s) => if q.svarLaast then q else Velg(q, s)
    case Confirm => if q.svarLaast || q.valg.None? then q else Bekreft(q)
    case TryAgain => if q.svarLaast then Nullstill(q) else q
  }

  /** A sequence of events: the fact index stays a valid index of the facts
      and the star count never goes down. */
  function Run(q: QuizState, events: seq<Event>): (r: QuizState)
    ensures ValidState(q) ==> ValidState(r)
    ensures r.stjerner >= q.stjerner
    decreases |events|
  {
    if events == [] then q else Run(Step(q, events[0]), events[1..])
  }

  /** The number of presses of "Prøv på nytt" among `events`. */
  function Resets(events: seq<Event>): (n: nat)
    ensures n <= |events|
  {
    if events == [] then 0 else (if events[0] == TryAgain then 1 else 0) + Resets(events[1..])
  }

  /** 1 while an answer can still be given, 0 once it is locked. */
  function Open(q: QuizState): nat {
    if q.svarLaast then 0 else 1
  }

  /** While the answer is locked, choosing and answering change nothing. */
  lemma LockedIsFrozen(q: QuizState, s: Svar)
    requires q.svarLaast
    ensures Step(q, Choose(s)) == q && Step(q, Confirm) == q
  {
  }

  /** At most one star per round: each star locks the answer, and only
      "Prøv på nytt" opens it again. */
  lemma {:induction false} StarsPerRound(q: QuizState, events: seq<Event>)
    ensures Run(q, events).stjerner + Open(Run(q, events)) <= q.stjerner + Open(q) + Resets(events)
    decreases |events|
  {
    if events != [] {
      var q' := Step(q, events[0]);
      StarsPerRound(q', events[1..]);
      assert q'.stjerner + Open(q') <= q.stjerner + Open(q) + (if events[0] == TryAgain then 1 else 0);
    }
  }

  /** So from a fresh page the stars never exceed one plus the number of
      resets. */
  lemma StarsBound(events: seq<Event>)
    ensures Run(QuizState(0, 0, None, false), events).stjerner <= 1 + Resets(events)
  {
    StarsPerRound(QuizState(0, 0, None, false), events);
  }
}
