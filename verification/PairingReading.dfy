/** What a run of pairing events leaves behind, read off the events themselves. */
module PairingReading {
  import opened Wrappers
  import opened ClaimText
  import opened PairingProtocol

  /** ASCII letters, digits and some extra characters. */
  predicate Over(text: string, extra: set<char>) {
    forall i :: 0 <= i < |text| ==>
      48 <= text[i] as int <= 57 || 65 <= text[i] as int <= 90 || 97 <= text[i] as int <= 122 || text[i] in extra
  }

  predicate ProperToken(text: string) {
    1 <= |text| <= 256 && Over(text, {'_', '-'})
  }

  predicate ProperURL(text: string) {
    1 <= |text| <= 4096 && Over(text, {'?', '=', '&', '%', '_', '-', '.', '/', ':'})
  }

  predicate ProperLogin(text: string) {
    1 <= |text| <= 39 && Over(text, {'-'}) && text[0] != '-' && text[|text| - 1] != '-'
  }

  /** The event changes the claim file. */
  predicate Changes(event: Event) {
    match event
    case Pairing(Some(pairOT), Some(claimURL), structured, _) => structured && ProperToken(pairOT) && ProperURL(claimURL)
    case Pairing(_, _, _, _) => false
    case Bound(login) => ProperLogin(login)
    case Unbound => false
    case NeedsClaim => true
  }

  predicate LastChange(events: seq<Event>, k: nat) {
    k < |events| && Changes(events[k]) && forall j :: k < j < |events| ==> !Changes(events[j])
  }

  predicate LastOwner(events: seq<Event>, k: nat, login: string) {
    && k < |events| && events[k] == Bound(login) && ProperLogin(login)
    && forall j :: k < j < |events| && events[j].Bound? ==> !ProperLogin(events[j].login)
  }

  lemma TokensMean(text: string)
    ensures ValidPairOT(text) <==> ProperToken(text)
  {
    assert forall c: char :: c in "_-" <==> c in {'_', '-'};
  }

  lemma URLsMean(text: string)
    ensures ValidClaimURL(text, true) <==> ProperURL(text)
  {
    assert forall c: char :: c in "?=&%_-./:" <==> c in {'?', '=', '&', '%', '_', '-', '.', '/', ':'};
  }

  lemma LoginsMean(text: string)
    ensures ValidLogin(text) <==> ProperLogin(text)
  {
  }

  lemma EffectiveMeans(event: Event)
    ensures Effective(event) <==> Changes(event)
  {
    match event
    case Pairing(Some(pairOT), Some(claimURL), _, _) =>
      TokensMean(pairOT);
      URLsMean(claimURL);
    case Bound(login) => LoginsMean(login);
    case _ =>
  }

  /** When an event is refused, and with which error. */
  lemma OutcomeMeans(event: Event)
    ensures match event
            case Pairing(Some(pairOT), Some(claimURL), structured, _) =>
              OutcomeOf(event) ==
                if pairOT == "" || claimURL == "" then Done
                else if !ProperToken(pairOT) then InvalidPairOT
                else if !structured || !ProperURL(claimURL) then InvalidClaimURL
                else Done
            case Bound(login) => OutcomeOf(event) == if ProperLogin(login) then Done else InvalidLogin
            case _ => OutcomeOf(event) == Done
  {
    match event
    case Pairing(Some(pairOT), Some(claimURL), _, _) =>
      TokensMean(pairOT);
      URLsMean(claimURL);
    case Bound(login) => LoginsMean(login);
    case _ =>
  }

  /** Reading after a run: the last change decides, and without one there is nothing to read. */
  ghost predicate ReadsAs(events: seq<Event>, dates: Dates, r: ReadResult) {
    && (forall k: nat :: LastChange(events, k) ==>
          match events[k]
          case Pairing(Some(pairOT), Some(claimURL), _, now) =>
            r == Found(Record(pairOT, claimURL, dates.toSecond(now + 600.0)))
          case _ => r == Absent)
    && ((forall j :: 0 <= j < |events| ==> !Changes(events[j])) ==> r == Absent)
  }

  /** After every run the file reads as the last event that changed it says. */
  lemma RunReadsAs(events: seq<Event>, dates: Dates)
    requires Lawful(dates)
    ensures ReadsAs(events, dates, Parse(Rendered(After(events).claim, dates), dates))
  {
    EveryRunIsReadable(events, dates);
    forall j | 0 <= j < |events|
      ensures Effective(events[j]) <==> Changes(events[j])
    {
      EffectiveMeans(events[j]);
    }
    forall k: nat | LastChange(events, k)
      ensures After(events).claim == ClaimOf(events[k])
    {
      LastEffectiveDecides(events, k);
    }
    if forall j :: 0 <= j < |events| ==> !Changes(events[j]) {
      NoEffectiveEvent(events);
    }
  }

  /** The owner after a run is the login of the last valid bound event. */
  ghost predicate OwnedAs(events: seq<Event>, owner: Option<string>) {
    && (forall k: nat, login :: LastOwner(events, k, login) ==> owner == Some(login))
    && ((forall j :: 0 <= j < |events| && events[j].Bound? ==> !ProperLogin(events[j].login)) ==> owner == None)
  }

  lemma {:induction false} RunOwnedAs(events: seq<Event>)
    ensures OwnedAs(events, After(events).owner)
    decreases |events|
  {
    if events != [] {
      var n := |events| - 1;
      var init, last := events[..n], events[n];
      RunOwnedAs(init);
      EffectiveMeans(last);
      forall k: nat, login | LastOwner(events, k, login)
        ensures After(events).owner == Some(login)
      {
        if k < n {
          assert LastOwner(init, k, login);
        }
      }
    }
  }
}
