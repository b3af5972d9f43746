/** Exception ids: `exc-` and groups of lower-case letters and digits, joined by dashes. */
module ExceptionIds {
  import opened RegisterChecks

  predicate GroupOk(group: string) {
    group != "" && forall i :: 0 <= i < |group| ==> 97 <= group[i] as int <= 122 || 48 <= group[i] as int <= 57
  }

  predicate GroupsOk(groups: seq<string>) {
    groups != [] && forall g :: 0 <= g < |groups| ==> GroupOk(groups[g])
  }

  function Joined(groups: seq<string>): string
    requires groups != []
  {
    if |groups| == 1 then groups[0] else Joined(groups[..|groups| - 1]) + "-" + groups[|groups| - 1]
  }

  /** The id can be put together from groups. */
  ghost predicate ProperId(id: string) {
    exists groups :: GroupsOk(groups) && id == "exc-" + Joined(groups)
  }

  // ---------- the part behind the prefix ----------

  predicate BodyOk(body: string) {
    && body != "" && body[0] != '-' && body[|body| - 1] != '-'
    && (forall i :: 0 <= i < |body| ==> 'a' <= body[i] <= 'z' || '0' <= body[i] <= '9' || body[i] == '-')
    && (forall i :: 0 < i < |body| ==> !(body[i - 1] == '-' && body[i] == '-'))
  }

  lemma BodyMeans(id: string)
    ensures ExceptionId(id) <==> |id| > 4 && id[..4] == "exc-" && BodyOk(id[4..])
  {
    if |id| > 4 && id[..4] == "exc-" {
      var body := id[4..];
      assert id[3] == id[..4][3] == '-';
      assert forall i :: 0 <= i < |body| ==> body[i] == id[i + 4];
      assert forall i :: 4 <= i < |id| ==> id[i] == body[i - 4];
      assert ExceptionId(id) ==> body[0] != '-' && body[|body| - 1] != '-';
    }
  }

  lemma GroupIsBody(group: string)
    requires GroupOk(group)
    ensures BodyOk(group) && '-' !in group
  {
  }

  lemma BodyExtends(body: string, group: string)
    requires BodyOk(body) && GroupOk(group)
    ensures BodyOk(body + "-" + group)
  {
    var more := body + "-" + group;
    forall i | 0 < i < |more|
      ensures !(more[i - 1] == '-' && more[i] == '-')
    {
      if i < |body| {
        assert more[i] == body[i] && more[i - 1] == body[i - 1];
      } else if i > |body| + 1 {
        assert more[i] == group[i - |body| - 1];
      } else if i == |body| {
        assert more[i - 1] == body[|body| - 1];
      } else {
        assert more[i] == group[0];
      }
    }
  }

  lemma {:induction false} JoinedIsBody(groups: seq<string>)
    requires GroupsOk(groups)
    ensures BodyOk(Joined(groups))
    decreases |groups|
  {
    var n := |groups| - 1;
    GroupIsBody(groups[n]);
    if n > 0 {
      JoinedIsBody(groups[..n]);
      BodyExtends(Joined(groups[..n]), groups[n]);
    }
  }

  lemma {:induction false} LastDash(body: string) returns (p: nat)
    requires '-' in body
    ensures p < |body| && body[p] == '-' && '-' !in body[p + 1..]
    decreases |body|
  {
    var n := |body| - 1;
    if body[n] == '-' {
      p := n;
    } else {
      assert body == body[..n] + [body[n]];
      p := LastDash(body[..n]);
      assert body[p + 1..] == body[..n][p + 1..] + [body[n]];
    }
  }

  lemma CutAtDash(body: string, p: nat)
    requires BodyOk(body) && p < |body| && body[p] == '-' && '-' !in body[p + 1..]
    ensures BodyOk(body[..p]) && GroupOk(body[p + 1..]) && body == body[..p] + "-" + body[p + 1..]
  {
    var last := body[p + 1..];
    assert 0 < p < |body| - 1;
    assert body[p - 1] != '-';
    forall i | 0 <= i < |last|
      ensures 97 <= last[i] as int <= 122 || 48 <= last[i] as int <= 57
    {
      assert last[i] == body[p + 1 + i] && last[i] in last;
    }
  }

  lemma JoinedPush(groups: seq<string>, last: string)
    requires GroupsOk(groups) && GroupOk(last)
    ensures GroupsOk(groups + [last]) && Joined(groups + [last]) == Joined(groups) + "-" + last
  {
    assert (groups + [last])[..|groups|] == groups;
  }

  lemma NoDashIsGroup(body: string)
    requires BodyOk(body) && '-' !in body
    ensures GroupsOk([body]) && Joined([body]) == body
  {
    assert forall i :: 0 <= i < |body| ==> body[i] in body;
  }

  lemma {:induction false} BodyIsJoined(body: string) returns (groups: seq<string>)
    requires BodyOk(body)
    ensures GroupsOk(groups) && Joined(groups) == body
    decreases |body|
  {
    if '-' !in body {
      groups := [body];
      NoDashIsGroup(body);
    } else {
      var p := LastDash(body);
      CutAtDash(body, p);
      var before := BodyIsJoined(body[..p]);
      groups := before + [body[p + 1..]];
      JoinedPush(before, body[p + 1..]);
    }
  }

  /** The scan for well-formed ids accepts exactly those that can be put together. */
  lemma IdMeans(id: string)
    ensures ExceptionId(id) <==> ProperId(id)
  {
    BodyMeans(id);
    if ExceptionId(id) {
      var groups := BodyIsJoined(id[4..]);
      assert id == id[..4] + id[4..];
    }
    if ProperId(id) {
      var groups :| GroupsOk(groups) && id == "exc-" + Joined(groups);
      JoinedIsBody(groups);
      assert id[4..] == Joined(groups) && id[..4] == "exc-";
    }
  }
}
