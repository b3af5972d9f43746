/** The claim file and the controller that drives it. */
module PairingController {
  import opened Wrappers
  import opened ClaimText
  import opened PairingProtocol
  import opened PairingReading

  class ClaimURLFile {
    var content: Option<string>
    var owner: Option<string>
    const dates: Dates

    constructor (dates: Dates)
      ensures this.dates == dates && content == None && owner == None
    {
      this.dates := dates;
      content, owner := None, None;
    }

    method Write(pairOT: string, claimURL: string, expires: real)
      modifies this`content
      ensures content == Some(Body(pairOT, claimURL, dates.format(expires)))
    {
      content := Some(Body(pairOT, claimURL, dates.format(expires)));
    }

    method WriteMigrationStub()
      modifies this`content
      ensures content == Some(STUB + ['\n'])
    {
      content := Some(STUB + ['\n']);
    }

    method Delete()
      modifies this`content
      ensures content == None
    {
      content := None;
    }

    method WriteOwner(login: string)
      modifies this`owner
      ensures owner == Some(login)
    {
      owner := Some(login);
    }

    method Read() returns (r: ReadResult)
      ensures r == Parse(content, dates)
    {
      if content.None? || Trim(content.value) == STUB {
        return Absent;
      }
      var lines := Lines(content.value);
      var values := map[];
      assert lines[..|lines|] == lines;
      for i := 0 to |lines|
        invariant values == Values(lines[..i])
      {
        assert lines[..i + 1][..i] == lines[..i];
        var pair := KeyValue(lines[i]);
        if pair.Some? {
          values := values[pair.value.0 := pair.value.1];
        }
      }
      return RecordOf(values, dates);
    }
  }

  class Controller {
    const file: ClaimURLFile

    constructor (file: ClaimURLFile)
      ensures this.file == file
    {
      this.file := file;
    }

    /** The files show this state. */
    ghost predicate Shows(state: State)
      reads file
    {
      file.content == Rendered(state.claim, file.dates) && file.owner == state.owner
    }

    method HandlePairingMaterial(pairOT: Option<string>, claimURL: Option<string>, structured: bool, now: real, ghost state: State)
      returns (outcome: Outcome)
      requires Shows(state)
      modifies file
      ensures outcome == OutcomeOf(Pairing(pairOT, claimURL, structured, now))
      ensures Shows(Next(state, Pairing(pairOT, claimURL, structured, now)))
      ensures file.owner == old(file.owner)
      ensures if Changes(Pairing(pairOT, claimURL, structured, now))
              then outcome == Done && file.content == Some(Body(pairOT.value, claimURL.value, file.dates.format(now + 600.0)))
              else file.content == old(file.content)
    {
      EffectiveMeans(Pairing(pairOT, claimURL, structured, now));
      if pairOT.None? || claimURL.None? || pairOT.value == "" || claimURL.value == "" {
        return Done;
      }
      if !ValidPairOT(pairOT.value) {
        return InvalidPairOT;
      }
      if !ValidClaimURL(claimURL.value, structured) {
        return InvalidClaimURL;
      }
      file.Write(pairOT.value, claimURL.value, now + LIFETIME);
      return Done;
    }

    method HandleBound(login: string, ghost state: State) returns (outcome: Outcome)
      requires Shows(state)
      modifies file
      ensures outcome == OutcomeOf(Bound(login))
      ensures Shows(Next(state, Bound(login)))
      ensures if ProperLogin(login) then file.content == None && file.owner == Some(login)
              else outcome == InvalidLogin && file.content == old(file.content) && file.owner == old(file.owner)
    {
      LoginsMean(login);
      if !ValidLogin(login) {
        return InvalidLogin;
      }
      file.Delete();
      file.WriteOwner(login);
      return Done;
    }

    method HandleNeedsClaim(ghost state: State)
      requires Shows(state)
      modifies file
      ensures Shows(Next(state, NeedsClaim))
    {
      file.WriteMigrationStub();
    }

    method Handle(event: Event, ghost state: State) returns (outcome: Outcome)
      requires Shows(state)
      modifies file
      ensures outcome == OutcomeOf(event)
      ensures Shows(Next(state, event))
    {
      match event
      case Pairing(pairOT, claimURL, structured, now) =>
        outcome := HandlePairingMaterial(pairOT, claimURL, structured, now, state);
      case Bound(login) =>
        outcome := HandleBound(login, state);
      case Unbound =>
        outcome := Done;
      case NeedsClaim =>
        HandleNeedsClaim(state);
        outcome := Done;
    }
  }

  /** Any run of events from a fresh directory, then one read of the claim and of the owner. */
  method RunThenRead(events: seq<Event>, dates: Dates) returns (r: ReadResult, owner: Option<string>)
    requires Lawful(dates)
    ensures r == Seen(After(events).claim, dates) && owner == After(events).owner
    ensures ReadsAs(events, dates, r) && OwnedAs(events, owner)
  {
    var file := new ClaimURLFile(dates);
    var controller := new Controller(file);
    assert events[..|events|] == events;
    for i := 0 to |events|
      invariant controller.Shows(After(events[..i]))
    {
      assert events[..i + 1][..i] == events[..i];
      var _ := controller.Handle(events[i], After(events[..i]));
    }
    EveryRunIsReadable(events, dates);
    RunReadsAs(events, dates);
    RunOwnedAs(events);
    r := file.Read();
    owner := file.owner;
  }
}
