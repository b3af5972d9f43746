/** The events of the pairing controller and the claim they leave behind. */
module PairingProtocol {
  import opened Wrappers
  import opened ClaimText

  const LIFETIME := 600.0

  predicate LetterOrDigit(c: char) {
    'A' <= c <= 'Z' || 'a' <= c <= 'z' || '0' <= c <= '9'
  }

  predicate ValidPairOT(pairOT: string) {
    1 <= |pairOT| <= 256 && forall i :: 0 <= i < |pairOT| ==> LetterOrDigit(pairOT[i]) || pairOT[i] in "_-"
  }

  predicate ValidLogin(login: string) {
    && 1 <= |login| <= 39 && login[0] != '-' && login[|login| - 1] != '-'
    && forall i :: 0 <= i < |login| ==> LetterOrDigit(login[i]) || login[i] == '-'
  }

  /** `structured` stands for the URL library: scheme, host, path and the token in the query. */
  predicate ValidClaimURL(claimURL: string, structured: bool) {
    && 0 < |claimURL| <= 4096
    && (forall i :: 0 <= i < |claimURL| ==> LetterOrDigit(claimURL[i]) || claimURL[i] in "?=&%_-./:")
    && structured
  }

  datatype Event =
    | Pairing(pairOT: Option<string>, claimURL: Option<string>, structured: bool, now: real)
    | Bound(login: string)
    | Unbound
    | NeedsClaim

  datatype Claim = Nothing | Stub | Paired(pairOT: string, claimURL: string, expires: real)

  datatype State = State(claim: Claim, owner: Option<string>)

  datatype Outcome = Done | InvalidPairOT | InvalidClaimURL | InvalidLogin

  predicate Present(text: Option<string>) {
    text.Some? && text.value != ""
  }

  function OutcomeOf(event: Event): Outcome {
    match event
    case Pairing(pairOT, claimURL, structured, _) =>
      if !Present(pairOT) || !Present(claimURL) then Done
      else if !ValidPairOT(pairOT.value) then InvalidPairOT
      else if !ValidClaimURL(claimURL.value, structured) then InvalidClaimURL
      else Done
    case Bound(login) => if ValidLogin(login) then Done else InvalidLogin
    case _ => Done
  }

  /** The events that change the claim file. */
  predicate Effective(event: Event) {
    OutcomeOf(event) == Done && (event.Pairing? ==> Present(event.pairOT) && Present(event.claimURL)) && !event.Unbound?
  }

  function ClaimOf(event: Event): Claim
    requires Effective(event)
  {
    match event
    case Pairing(pairOT, claimURL, _, now) => Paired(pairOT.value, claimURL.value, now + LIFETIME)
    case Bound(_) => Nothing
    case NeedsClaim => Stub
  }

  function Next(state: State, event: Event): State {
    if !Effective(event) then state
    else State(ClaimOf(event), if event.Bound? then Some(event.login) else state.owner)
  }

  function After(events: seq<Event>): State {
    if events == [] then State(Nothing, None)
    else Next(After(events[..|events| - 1]), events[|events| - 1])
  }

  /** The claim after a run is that of its last effective event. */
  lemma {:induction false} LastEffectiveDecides(events: seq<Event>, k: nat)
    requires k < |events| && Effective(events[k])
    requires forall j :: k < j < |events| ==> !Effective(events[j])
    ensures After(events).claim == ClaimOf(events[k])
    decreases |events|
  {
    if k < |events| - 1 {
      LastEffectiveDecides(events[..|events| - 1], k);
    }
  }

  lemma {:induction false} NoEffectiveEvent(events: seq<Event>)
    requires forall j :: 0 <= j < |events| ==> !Effective(events[j])
    ensures After(events) == State(Nothing, None)
    decreases |events|
  {
    if events != [] {
      NoEffectiveEvent(events[..|events| - 1]);
    }
  }

  /** Only checked text gets into a claim, so no value of it can break its line. */
  predicate OneLine(claim: Claim) {
    claim.Paired? ==> '\n' !in claim.pairOT && '\n' !in claim.claimURL
  }

  lemma EffectiveIsOneLine(event: Event)
    requires Effective(event)
    ensures OneLine(ClaimOf(event))
  {
  }

  lemma {:induction false} RunsStayOneLine(events: seq<Event>)
    ensures OneLine(After(events).claim)
    decreases |events|
  {
    if events != [] {
      RunsStayOneLine(events[..|events| - 1]);
      if Effective(events[|events| - 1]) {
        EffectiveIsOneLine(events[|events| - 1]);
      }
    }
  }

  // ---------- the file that shows a claim ----------

  function Rendered(claim: Claim, dates: Dates): Option<string> {
    match claim
    case Nothing => None
    case Stub => Some(STUB + ['\n'])
    case Paired(pairOT, claimURL, expires) => Some(Body(pairOT, claimURL, dates.format(expires)))
  }

  function Seen(claim: Claim, dates: Dates): ReadResult {
    if claim.Paired? then Found(Record(claim.pairOT, claim.claimURL, dates.toSecond(claim.expires))) else Absent
  }

  /** Reading the file of a claim gives the claim, and never fails. */
  lemma RenderedIsSeen(claim: Claim, dates: Dates)
    requires Lawful(dates) && OneLine(claim)
    ensures Parse(Rendered(claim, dates), dates) == Seen(claim, dates)
  {
    match claim
    case Nothing =>
    case Stub => StubIsAbsent(dates);
    case Paired(pairOT, claimURL, expires) => WrittenIsRead(pairOT, claimURL, expires, dates);
  }

  /** After every run the file reads as its last effective event left it. */
  lemma EveryRunIsReadable(events: seq<Event>, dates: Dates)
    requires Lawful(dates)
    ensures Parse(Rendered(After(events).claim, dates), dates) == Seen(After(events).claim, dates)
    ensures !Parse(Rendered(After(events).claim, dates), dates).InvalidBody?
  {
    RunsStayOneLine(events);
    RenderedIsSeen(After(events).claim, dates);
  }
}
