/**
 What `valueRange(at:)` finds: the first value, in document order, whose chain of
 object keys is the path. A value is named by its trail, the position of the member
 to enter at each level.
 */
module KeyPathLookup {
  import opened Wrappers
  import opened JsonGrammar
  import opened ScannerSpec
  import opened ScannerGrammar

  /** Turns the text of a string literal into a key, if it decodes at all. */
  type Decoder<!K> = seq<byte> -> Option<K>

  datatype Lookup = Undecodable | Nowhere | Somewhere(trail: seq<nat>)

  // ---------- trails ----------

  function Count(ms: Members): nat {
    if ms.LastMember? then 1 else 1 + Count(ms.rest)
  }

  function Nth(ms: Members, n: nat): Member
    requires n < Count(ms)
    ensures Nth(ms, n) < ms
  {
    if n == 0 then ms.member else Nth(ms.rest, n - 1)
  }

  /** The trail enters an object and an existing member of it at every level. */
  predicate Trail(v: Value, trail: seq<nat>) {
    trail != [] ==> v.Object? && trail[0] < Count(v.members) && Trail(Nth(v.members, trail[0]).value, trail[1..])
  }

  /** The lookup among members, if it succeeds, names an existing value. */
  predicate MembersTrail(ms: Members, r: Lookup) {
    r.Somewhere? ==> r.trail != [] && r.trail[0] < Count(ms) && Trail(Nth(ms, r.trail[0]).value, r.trail[1..])
  }

  function ValueAt(v: Value, trail: seq<nat>): Value
    requires Trail(v, trail)
  {
    if trail == [] then v else ValueAt(Nth(v.members, trail[0]).value, trail[1..])
  }

  /** How far behind the opening brace the value of the `n`-th member starts. */
  function NthOffset(ms: Members, n: nat): nat
    requires n < Count(ms)
  {
    if n == 0 then |PrintLabel(ms.member)|
    else |PrintLabel(ms.member)| + |PrintValue(ms.member.value)| + |ms.member.after| + 1 + NthOffset(ms.rest, n - 1)
  }

  /** How far behind the start of `v` the value on the trail starts. */
  function OffsetOf(v: Value, trail: seq<nat>): nat
    requires Trail(v, trail)
  {
    if trail == [] then 0
    else 1 + NthOffset(v.members, trail[0]) + OffsetOf(Nth(v.members, trail[0]).value, trail[1..])
  }

  /** The keys along the trail are the path. */
  predicate Leads<K(==)>(v: Value, trail: seq<nat>, decode: Decoder<K>, path: seq<K>) {
    if trail == [] || path == [] then trail == [] && path == []
    else
      && v.Object? && trail[0] < Count(v.members)
      && decode(PrintString(Nth(v.members, trail[0]).key)) == Some(path[0])
      && Leads(Nth(v.members, trail[0]).value, trail[1..], decode, path[1..])
  }

  /** Document order on trails of one length. */
  predicate Before(s: seq<nat>, t: seq<nat>) {
    s != [] && t != [] && (s[0] < t[0] || (s[0] == t[0] && Before(s[1..], t[1..])))
  }

  /** Every key of an object in `v` that can be entered by keys alone decodes. */
  predicate KeysDecode<K>(v: Value, decode: Decoder<K>) {
    v.Object? ==> forall n :: 0 <= n < Count(v.members) ==>
      decode(PrintString(Nth(v.members, n).key)).Some? && KeysDecode(Nth(v.members, n).value, decode)
  }

  // ---------- the recursive lookup ----------

  function LookupValue<K(==)>(v: Value, decode: Decoder<K>, path: seq<K>): Lookup
    decreases |path|, 1, v
  {
    if path == [] then Somewhere([])
    else if v.Object? then LookupMembers(v.members, decode, path)
    else Nowhere
  }

  function LookupMembers<K(==)>(ms: Members, decode: Decoder<K>, path: seq<K>): Lookup
    requires path != []
    decreases |path|, 0, ms
  {
    match decode(PrintString(ms.member.key))
    case None => Undecodable
    case Some(key) =>
      match if key == path[0] then LookupValue(ms.member.value, decode, path[1..]) else Nowhere
      case Undecodable => Undecodable
      case Somewhere(trail) => Somewhere([0] + trail)
      case Nowhere =>
        if ms.LastMember? then Nowhere
        else match LookupMembers(ms.rest, decode, path)
          case Somewhere(trail) => if trail == [] then Nowhere else Somewhere([trail[0] + 1] + trail[1..])
          case other => other
  }

  // ---------- the lookup is the first match in document order ----------

  /** `Leads` for the members of one object. */
  predicate LeadsFrom<K(==)>(ms: Members, trail: seq<nat>, decode: Decoder<K>, path: seq<K>)
    requires path != []
  {
    && trail != [] && trail[0] < Count(ms)
    && decode(PrintString(Nth(ms, trail[0]).key)) == Some(path[0])
    && Leads(Nth(ms, trail[0]).value, trail[1..], decode, path[1..])
  }

  lemma {:induction false} LookupLeads<K>(v: Value, decode: Decoder<K>, path: seq<K>)
    ensures LookupValue(v, decode, path).Somewhere? ==> Leads(v, LookupValue(v, decode, path).trail, decode, path)
    decreases |path|, 1, v
  {
    if path != [] && v.Object? {
      LookupMembersLeads(v.members, decode, path);
    }
  }

  lemma {:induction false} LookupMembersLeads<K>(ms: Members, decode: Decoder<K>, path: seq<K>)
    requires path != []
    ensures LookupMembers(ms, decode, path).Somewhere? ==> LeadsFrom(ms, LookupMembers(ms, decode, path).trail, decode, path)
    decreases |path|, 0, ms
  {
    LookupLeads(ms.member.value, decode, path[1..]);
    if ms.MoreMembers? {
      LookupMembersLeads(ms.rest, decode, path);
    }
  }

  /** The lookup stops at a trail that does not come after this one. */
  predicate NotAfter(r: Lookup, u: seq<nat>) {
    r.Undecodable? || (r.Somewhere? && (u == r.trail || Before(r.trail, u)))
  }

  lemma {:induction false} LookupNotAfter<K>(v: Value, decode: Decoder<K>, path: seq<K>, u: seq<nat>)
    requires Leads(v, u, decode, path)
    ensures NotAfter(LookupValue(v, decode, path), u)
    decreases |path|, 1, v
  {
    if path != [] {
      LookupMembersNotAfter(v.members, decode, path, u);
    }
  }

  lemma {:induction false} LookupMembersNotAfter<K>(ms: Members, decode: Decoder<K>, path: seq<K>, u: seq<nat>)
    requires path != [] && LeadsFrom(ms, u, decode, path)
    ensures NotAfter(LookupMembers(ms, decode, path), u)
    decreases |path|, 0, ms
  {
    if u[0] == 0 {
      LookupNotAfter(ms.member.value, decode, path[1..], u[1..]);
      assert u == [0] + u[1..];
    } else {
      LeadsFromRest(ms, u, decode, path);
      LookupMembersNotAfter(ms.rest, decode, path, [u[0] - 1] + u[1..]);
    }
  }

  /** The lookup finds a trail that the path leads to, and the first one in document order. */
  lemma LookupValueFirst<K>(v: Value, decode: Decoder<K>, path: seq<K>)
    ensures var r := LookupValue(v, decode, path);
            && (r.Somewhere? ==> Leads(v, r.trail, decode, path))
            && (forall u :: Leads(v, u, decode, path) && !r.Undecodable? ==> r.Somewhere? && (u == r.trail || Before(r.trail, u)))
  {
    LookupLeads(v, decode, path);
    forall u | Leads(v, u, decode, path)
      ensures NotAfter(LookupValue(v, decode, path), u)
    {
      LookupNotAfter(v, decode, path, u);
    }
  }

  lemma {:induction false} MemberEndsInside(ms: Members, n: nat)
    requires n < Count(ms)
    ensures NthOffset(ms, n) + |PrintValue(Nth(ms, n).value)| < |PrintMembers(ms)|
    decreases ms
  {
    if n > 0 {
      MemberEndsInside(ms.rest, n - 1);
    }
  }

  lemma {:induction false} LaterMemberStartsBehind(ms: Members, m: nat, n: nat)
    requires m < n < Count(ms)
    ensures NthOffset(ms, m) + |PrintValue(Nth(ms, m).value)| < NthOffset(ms, n)
    decreases ms
  {
    if m > 0 {
      LaterMemberStartsBehind(ms.rest, m - 1, n - 1);
    }
  }

  lemma {:induction false} ValueLiesInside(v: Value, trail: seq<nat>)
    requires Trail(v, trail)
    ensures OffsetOf(v, trail) + |PrintValue(ValueAt(v, trail))| <= |PrintValue(v)|
    decreases |trail|
  {
    if trail != [] {
      MemberEndsInside(v.members, trail[0]);
      ValueLiesInside(Nth(v.members, trail[0]).value, trail[1..]);
    }
  }

  /** Of two places in document order, the value at the first ends before the value at the second starts. */
  lemma {:induction false} BeforeIsEarlier(v: Value, s: seq<nat>, t: seq<nat>)
    requires Trail(v, s) && Trail(v, t) && Before(s, t)
    ensures OffsetOf(v, s) + |PrintValue(ValueAt(v, s))| < OffsetOf(v, t)
    decreases |s|
  {
    var m, n := Nth(v.members, s[0]).value, Nth(v.members, t[0]).value;
    ValueLiesInside(m, s[1..]);
    if s[0] < t[0] {
      LaterMemberStartsBehind(v.members, s[0], t[0]);
    } else {
      BeforeIsEarlier(m, s[1..], t[1..]);
    }
  }

  lemma LeadsFromRest<K>(ms: Members, u: seq<nat>, decode: Decoder<K>, path: seq<K>)
    requires path != [] && LeadsFrom(ms, u, decode, path) && u[0] > 0
    ensures ms.MoreMembers? && LeadsFrom(ms.rest, [u[0] - 1] + u[1..], decode, path)
  {
    assert ([u[0] - 1] + u[1..])[1..] == u[1..];
  }

  lemma {:induction false} LeadsIsTrail<K>(v: Value, trail: seq<nat>, decode: Decoder<K>, path: seq<K>)
    requires Leads(v, trail, decode, path)
    ensures Trail(v, trail)
    decreases |trail|
  {
    if trail != [] {
      LeadsIsTrail(Nth(v.members, trail[0]).value, trail[1..], decode, path[1..]);
    }
  }

  lemma {:induction false} LookupDecodes<K>(v: Value, decode: Decoder<K>, path: seq<K>)
    requires KeysDecode(v, decode)
    ensures !LookupValue(v, decode, path).Undecodable?
    decreases |path|, 1, v
  {
    if path != [] && v.Object? {
      LookupMembersDecode(v.members, decode, path);
    }
  }

  lemma {:induction false} LookupMembersDecode<K>(ms: Members, decode: Decoder<K>, path: seq<K>)
    requires path != []
    requires forall n :: 0 <= n < Count(ms) ==> decode(PrintString(Nth(ms, n).key)).Some? && KeysDecode(Nth(ms, n).value, decode)
    ensures !LookupMembers(ms, decode, path).Undecodable?
    decreases |path|, 0, ms
  {
    assert Nth(ms, 0) == ms.member;
    LookupDecodes(ms.member.value, decode, path[1..]);
    if ms.MoreMembers? {
      forall n | 0 <= n < Count(ms.rest)
        ensures decode(PrintString(Nth(ms.rest, n).key)).Some? && KeysDecode(Nth(ms.rest, n).value, decode)
      {
        assert Nth(ms, n + 1) == Nth(ms.rest, n);
      }
      LookupMembersDecode(ms.rest, decode, path);
    }
  }

  // ---------- the scanner performs the lookup ----------

  /** The answer of the scanner for a lookup in the value printed at `i`. */
  ghost function Answer(v: Value, i: nat, r: Lookup): Search
    requires r.Somewhere? ==> Trail(v, r.trail)
  {
    match r
    case Undecodable => Invalid
    case Nowhere => Missing
    case Somewhere(trail) => Found(i + OffsetOf(v, trail), i + OffsetOf(v, trail) + |PrintValue(ValueAt(v, trail))|)
  }

  /** The same for the members whose text starts at `i`. */
  ghost function AnswerFrom(ms: Members, i: nat, r: Lookup): Search
    requires MembersTrail(ms, r)
  {
    match r
    case Undecodable => Invalid
    case Nowhere => Missing
    case Somewhere(trail) => Answer(Nth(ms, trail[0]).value, i + NthOffset(ms, trail[0]), Somewhere(trail[1..]))
  }

  lemma LookupTrail<K>(v: Value, decode: Decoder<K>, path: seq<K>)
    ensures var r := LookupValue(v, decode, path); r.Somewhere? ==> Trail(v, r.trail)
  {
    LookupLeads(v, decode, path);
    var r := LookupValue(v, decode, path);
    if r.Somewhere? {
      LeadsIsTrail(v, r.trail, decode, path);
    }
  }

  lemma LookupMembersTrail<K>(ms: Members, decode: Decoder<K>, path: seq<K>)
    requires path != []
    ensures MembersTrail(ms, LookupMembers(ms, decode, path))
  {
    LookupMembersLeads(ms, decode, path);
    var r := LookupMembers(ms, decode, path);
    if r.Somewhere? {
      LeadsIsTrail(Nth(ms, r.trail[0]).value, r.trail[1..], decode, path[1..]);
    }
  }

  lemma FindBehindBlanks<K>(bytes: seq<byte>, i: nat, decode: Decoder<K>, path: seq<K>)
    requires path != []
    ensures FindInMembers(bytes, BlanksEnd(bytes, i), decode, path) == FindInMembers(bytes, i, decode, path)
  {
    BlanksTwice(bytes, i);
  }

  /** What the search says of one member whose value starts at `start` and is followed by the delimiter at `k`. */
  function StepResult<K(==)>(bytes: seq<byte>, start: nat, k: nat, m: Member, decode: Decoder<K>, path: seq<K>): Search
    requires path != []
  {
    match decode(PrintString(m.key))
    case None => Invalid
    case Some(key) =>
      var found := if key == path[0] then FindInValue(bytes, start, decode, path) else Missing;
      if found.Missing? then AfterMember(bytes, k, decode, path) else found
  }

  /** One member of `FindInMembers`: `start` is where its value starts and `k` the delimiter behind it. */
  lemma FindStep<K>(bytes: seq<byte>, i: nat, ms: Members, decode: Decoder<K>, path: seq<K>) returns (start: nat, k: nat)
    requires path != [] && MembersOk(ms) && At(bytes, i, PrintMembers(ms))
    ensures start == i + |PrintLabel(ms.member)| && Printed(bytes, start, ms.member.value)
    ensures ValueEnd(bytes, start) == Some(start + |PrintValue(ms.member.value)|)
    ensures k == start + |PrintValue(ms.member.value)| + |ms.member.after|
    ensures FindInMembers(bytes, i, decode, path) == StepResult(bytes, start, k, ms.member, decode, path)
  {
    var m := ms.member;
    start, k := MembersLayout(bytes, i, ms);
    var c := MemberReads(bytes, i, m, start, k);
    ItemReads(bytes, start, m, k);
    StepUnfolds(bytes, i, m, c, start, k, decode, path);
  }

  /** Behind the colon come blanks and then the value. */
  lemma ColonLeads(bytes: seq<byte>, m: Member, c: nat, start: nat, k: nat)
    requires MemberOk(m) && At(bytes, c, m.afterColon) && start == c + |m.afterColon|
    requires ItemAt(bytes, start, [], m.value, m.after, k)
    ensures BlanksEnd(bytes, c) == start
  {
    ItemWidened(bytes, c, m.afterColon, m.value, m.after, k);
    ItemStops(bytes, c, m.afterColon, m.value, m.after, k);
  }

  /** Reading the label of a printed member leads to its value. */
  lemma MemberReads(bytes: seq<byte>, i: nat, m: Member, start: nat, k: nat) returns (c: nat)
    requires MemberOk(m) && At(bytes, i, PrintLabel(m)) && start == i + |PrintLabel(m)|
    requires ItemAt(bytes, start, [], m.value, m.after, k)
    ensures i < |bytes| && LabelEnd(bytes, i) == Some(c) && BlanksEnd(bytes, c) == start
    ensures StringEnd(bytes, BlanksEnd(bytes, i)).Some?
    ensures bytes[BlanksEnd(bytes, i)..StringEnd(bytes, BlanksEnd(bytes, i)).value] == PrintString(m.key)
  {
    var q, b;
    q, b, c := LabelComplete(bytes, i, m);
    ColonLeads(bytes, m, c, start, k);
  }

  /** Reading its value leads to the delimiter. */
  lemma ItemReads(bytes: seq<byte>, start: nat, m: Member, k: nat)
    requires ItemAt(bytes, start, [], m.value, m.after, k)
    ensures Printed(bytes, start, m.value) && ValueEnd(bytes, start) == Some(start + |PrintValue(m.value)|)
    ensures ItemEnd(bytes, start) == Some(k)
  {
    ItemStops(bytes, start, [], m.value, m.after, k);
    ItemComplete(bytes, start, [], m.value, m.after, k);
  }

  lemma StepUnfolds<K>(bytes: seq<byte>, i: nat, m: Member, c: nat, start: nat, k: nat, decode: Decoder<K>, path: seq<K>)
    requires path != [] && i < |bytes| && LabelEnd(bytes, i) == Some(c) && BlanksEnd(bytes, c) == start
    requires StringEnd(bytes, BlanksEnd(bytes, i)).Some?
    requires bytes[BlanksEnd(bytes, i)..StringEnd(bytes, BlanksEnd(bytes, i)).value] == PrintString(m.key)
    requires ItemEnd(bytes, start) == Some(k)
    ensures FindInMembers(bytes, i, decode, path) == StepResult(bytes, start, k, m, decode, path)
  {
  }

  lemma {:induction false} FindInValueIsLookup<K>(bytes: seq<byte>, i: nat, v: Value, decode: Decoder<K>, path: seq<K>)
    requires path != [] && Printed(bytes, i, v) && ValueEnd(bytes, i) == Some(i + |PrintValue(v)|)
    ensures LookupValue(v, decode, path[1..]).Somewhere? ==> Trail(v, LookupValue(v, decode, path[1..]).trail)
    ensures FindInValue(bytes, i, decode, path) == Answer(v, i, LookupValue(v, decode, path[1..]))
    decreases |path|, 2
  {
    LookupTrail(v, decode, path[1..]);
    if |path| > 1 {
      FindInObjectIsLookup(bytes, i, v, decode, path[1..]);
    }
  }

  /** An answer inside the first member. */
  lemma AnswerHead(ms: Members, i: nat, trail: seq<nat>)
    requires Trail(ms.member.value, trail)
    ensures AnswerFrom(ms, i, Somewhere([0] + trail)) == Answer(ms.member.value, i + |PrintLabel(ms.member)|, Somewhere(trail))
  {
    assert ([0] + trail)[1..] == trail;
  }

  /** An answer inside a later member. */
  lemma AnswerTail(ms: Members, i: nat, k: nat, trail: seq<nat>)
    requires ms.MoreMembers? && k == i + |PrintLabel(ms.member)| + |PrintValue(ms.member.value)| + |ms.member.after|
    requires trail != [] && trail[0] < Count(ms.rest) && Trail(Nth(ms.rest, trail[0]).value, trail[1..])
    ensures AnswerFrom(ms, i, Somewhere([trail[0] + 1] + trail[1..])) == AnswerFrom(ms.rest, k + 1, Somewhere(trail))
  {
    assert ([trail[0] + 1] + trail[1..])[1..] == trail[1..];
  }

  /** The lookup passes over the first member. */
  predicate Passes<K(==)>(ms: Members, decode: Decoder<K>, path: seq<K>)
    requires path != []
  {
    var key := decode(PrintString(ms.member.key));
    key.Some? && (key.value == path[0] ==> LookupValue(ms.member.value, decode, path[1..]).Nowhere?)
  }

  /** The trail of the rest, moved by the member passed over. */
  lemma LookupPasses<K>(ms: Members, decode: Decoder<K>, path: seq<K>)
    requires path != [] && ms.MoreMembers? && Passes(ms, decode, path)
    ensures var r := LookupMembers(ms.rest, decode, path);
            if r.Somewhere? then
              && r.trail != [] && r.trail[0] < Count(ms.rest) && Trail(Nth(ms.rest, r.trail[0]).value, r.trail[1..])
              && LookupMembers(ms, decode, path) == Somewhere([r.trail[0] + 1] + r.trail[1..])
            else LookupMembers(ms, decode, path) == r
  {
    LookupMembersTrail(ms.rest, decode, path);
  }

  /** Passing over a member moves the text by as much as it moves the trail. */
  lemma AnswerPasses<K>(ms: Members, i: nat, k: nat, decode: Decoder<K>, path: seq<K>)
    requires path != [] && ms.MoreMembers? && Passes(ms, decode, path)
    requires k == i + |PrintLabel(ms.member)| + |PrintValue(ms.member.value)| + |ms.member.after|
    requires MembersTrail(ms, LookupMembers(ms, decode, path)) && MembersTrail(ms.rest, LookupMembers(ms.rest, decode, path))
    ensures AnswerFrom(ms, i, LookupMembers(ms, decode, path)) == AnswerFrom(ms.rest, k + 1, LookupMembers(ms.rest, decode, path))
  {
    LookupPasses(ms, decode, path);
    var r := LookupMembers(ms.rest, decode, path);
    if r.Somewhere? {
      AnswerTail(ms, i, k, r.trail);
    }
  }

  /** Not passing over a member, the answer lies in it. */
  lemma AnswerStops<K>(ms: Members, i: nat, decode: Decoder<K>, path: seq<K>)
    requires path != [] && decode(PrintString(ms.member.key)).Some? && !Passes(ms, decode, path)
    requires MembersTrail(ms, LookupMembers(ms, decode, path))
    ensures LookupValue(ms.member.value, decode, path[1..]).Somewhere? ==>
              Trail(ms.member.value, LookupValue(ms.member.value, decode, path[1..]).trail)
    ensures AnswerFrom(ms, i, LookupMembers(ms, decode, path)) ==
              Answer(ms.member.value, i + |PrintLabel(ms.member)|, LookupValue(ms.member.value, decode, path[1..]))
  {
    LookupTrail(ms.member.value, decode, path[1..]);
    var inner := LookupValue(ms.member.value, decode, path[1..]);
    if inner.Somewhere? {
      AnswerHead(ms, i, inner.trail);
    }
  }

  /** The search stops in a member exactly when the lookup does not pass over it. */
  lemma StepFollowsLookup<K>(bytes: seq<byte>, start: nat, k: nat, ms: Members, decode: Decoder<K>, path: seq<K>)
    requires path != [] && decode(PrintString(ms.member.key)).Some?
    requires var inner := LookupValue(ms.member.value, decode, path[1..]);
             && (inner.Somewhere? ==> Trail(ms.member.value, inner.trail))
             && FindInValue(bytes, start, decode, path) == Answer(ms.member.value, start, inner)
    ensures StepResult(bytes, start, k, ms.member, decode, path) ==
              if Passes(ms, decode, path) then AfterMember(bytes, k, decode, path)
              else Answer(ms.member.value, start, LookupValue(ms.member.value, decode, path[1..]))
  {
  }

  lemma {:induction false} StepAnswers<K>(bytes: seq<byte>, start: nat, k: nat, ms: Members, decode: Decoder<K>, path: seq<K>)
    requires path != [] && Printed(bytes, start, ms.member.value)
    requires ValueEnd(bytes, start) == Some(start + |PrintValue(ms.member.value)|)
    ensures LookupValue(ms.member.value, decode, path[1..]).Somewhere? ==>
              Trail(ms.member.value, LookupValue(ms.member.value, decode, path[1..]).trail)
    ensures StepResult(bytes, start, k, ms.member, decode, path) ==
              if decode(PrintString(ms.member.key)).None? then Invalid
              else if Passes(ms, decode, path) then AfterMember(bytes, k, decode, path)
              else Answer(ms.member.value, start, LookupValue(ms.member.value, decode, path[1..]))
    decreases |path|, 3
  {
    FindInValueIsLookup(bytes, start, ms.member.value, decode, path);
    if decode(PrintString(ms.member.key)).Some? {
      StepFollowsLookup(bytes, start, k, ms, decode, path);
    }
  }

  /** The member step of the search, told by the lookup in the member's value. */
  lemma {:induction false} FindMember<K>(bytes: seq<byte>, i: nat, ms: Members, decode: Decoder<K>, path: seq<K>, k: nat)
    requires path != [] && MembersOk(ms) && At(bytes, i, PrintMembers(ms))
    requires k == i + |PrintLabel(ms.member)| + |PrintValue(ms.member.value)| + |ms.member.after|
    ensures LookupValue(ms.member.value, decode, path[1..]).Somewhere? ==>
              Trail(ms.member.value, LookupValue(ms.member.value, decode, path[1..]).trail)
    ensures FindInMembers(bytes, i, decode, path) ==
              if decode(PrintString(ms.member.key)).None? then Invalid
              else if Passes(ms, decode, path) then AfterMember(bytes, k, decode, path)
              else Answer(ms.member.value, i + |PrintLabel(ms.member)|, LookupValue(ms.member.value, decode, path[1..]))
    decreases |path|, 4
  {
    LookupTrail(ms.member.value, decode, path[1..]);
    var start, end := FindStep(bytes, i, ms, decode, path);
    assert end == k;
    StepAnswers(bytes, start, k, ms, decode, path);
  }

  lemma NextMembers(bytes: seq<byte>, i: nat, ms: Members) returns (k: nat)
    requires MembersOk(ms) && At(bytes, i, PrintMembers(ms))
    ensures k == i + |PrintLabel(ms.member)| + |PrintValue(ms.member.value)| + |ms.member.after|
    ensures ms.LastMember? ==> Sees(bytes, k, RBRACE)
    ensures ms.MoreMembers? ==> Sees(bytes, k, COMMA) && MembersOk(ms.rest) && At(bytes, k + 1, PrintMembers(ms.rest))
  {
    var c;
    c, k := MembersLayout(bytes, i, ms);
  }

  lemma {:induction false} FindInMembersIsLookup<K>(bytes: seq<byte>, i: nat, ms: Members, decode: Decoder<K>, path: seq<K>)
    requires path != [] && MembersOk(ms) && At(bytes, i, PrintMembers(ms))
    ensures MembersTrail(ms, LookupMembers(ms, decode, path))
    ensures FindInMembers(bytes, i, decode, path) == AnswerFrom(ms, i, LookupMembers(ms, decode, path))
    decreases |path|, 5, ms
  {
    LookupMembersTrail(ms, decode, path);
    var k := NextMembers(bytes, i, ms);
    FindMember(bytes, i, ms, decode, path, k);
    if decode(PrintString(ms.member.key)).Some? {
      if !Passes(ms, decode, path) {
        AnswerStops(ms, i, decode, path);
      } else if ms.MoreMembers? {
        FindInMembersIsLookup(bytes, k + 1, ms.rest, decode, path);
        AnswerPasses(ms, i, k, decode, path);
      }
    }
  }

  lemma FindObjectStep<K>(bytes: seq<byte>, i: nat, members: Members, decode: Decoder<K>, path: seq<K>)
    requires path != [] && Sees(bytes, i, LBRACE) && MembersOk(members) && At(bytes, i + 1, PrintMembers(members))
    ensures FindInObject(bytes, i, decode, path) == FindInMembers(bytes, i + 1, decode, path)
  {
    FindBehindBlanks(bytes, i + 1, decode, path);
    MembersComplete(bytes, i + 1, members);
  }

  lemma FindNoMembers<K>(bytes: seq<byte>, i: nat, v: Value, decode: Decoder<K>, path: seq<K>)
    requires path != [] && WellFormed(v) && !v.Object? && At(bytes, i, PrintValue(v))
    ensures FindInObject(bytes, i, decode, path) == Missing
  {
    ValueStarts(v);
    AtFirst(bytes, i, PrintValue(v));
    if v.EmptyObject? {
      AtConcat(bytes, i, [LBRACE], v.blanks + [RBRACE]);
      AtConcat(bytes, i + 1, v.blanks, [RBRACE]);
      BlanksBefore(bytes, i + 1, v.blanks, [RBRACE]);
    } else {
      assert PrintValue(v)[0] != LBRACE;
    }
  }

  lemma {:induction false} FindInObjectIsLookup<K>(bytes: seq<byte>, i: nat, v: Value, decode: Decoder<K>, path: seq<K>)
    requires path != [] && WellFormed(v) && At(bytes, i, PrintValue(v))
    ensures LookupValue(v, decode, path).Somewhere? ==> Trail(v, LookupValue(v, decode, path).trail)
    ensures FindInObject(bytes, i, decode, path) == Answer(v, i, LookupValue(v, decode, path))
    decreases |path|, 6
  {
    LookupTrail(v, decode, path);
    if v.Object? {
      ObjectLayout(bytes, i, v.members);
      FindObjectStep(bytes, i, v.members, decode, path);
      FindInMembersIsLookup(bytes, i + 1, v.members, decode, path);
    } else {
      FindNoMembers(bytes, i, v, decode, path);
    }
  }

  /**
   For every buffer that starts with blanks and a well-formed document `v`, whatever
   follows, `valueRange` answers with exactly the bytes of the value that the recursive
   lookup finds, nil exactly when there is none, and throws exactly when it meets a key
   that does not decode.
   */
  lemma ValueRangeIsLookup<K>(bytes: seq<byte>, ws: seq<byte>, v: Value, decode: Decoder<K>, path: seq<K>)
    requires path != [] && Blanks(ws) && WellFormed(v) && At(bytes, 0, ws + PrintValue(v))
    ensures LookupValue(v, decode, path).Somewhere? ==> Trail(v, LookupValue(v, decode, path).trail)
    ensures FindInObject(bytes, BlanksEnd(bytes, 0), decode, path) == Answer(v, |ws|, LookupValue(v, decode, path))
  {
    AtConcat(bytes, 0, ws, PrintValue(v));
    ValueStarts(v);
    BlanksBefore(bytes, 0, ws, PrintValue(v));
    FindInObjectIsLookup(bytes, |ws|, v, decode, path);
  }

  /** The path leads to this trail, and to no other that comes before it. */
  ghost predicate FirstMatch<K>(v: Value, u: seq<nat>, decode: Decoder<K>, path: seq<K>) {
    Trail(v, u) && Leads(v, u, decode, path) && forall w :: Leads(v, w, decode, path) ==> w == u || Before(u, w)
  }

  /** The byte count is the printed length of the value found, and nil when there is none. */
  lemma RawByteCountIsPrintedLength<K>(bytes: seq<byte>, ws: seq<byte>, v: Value, decode: Decoder<K>, path: seq<K>)
    requires path != [] && Blanks(ws) && WellFormed(v) && At(bytes, 0, ws + PrintValue(v)) && KeysDecode(v, decode)
    ensures var count := RangeLength(FindInObject(bytes, BlanksEnd(bytes, 0), decode, path));
            if exists u :: Leads(v, u, decode, path) then
              exists u :: FirstMatch(v, u, decode, path) && count == Some(|PrintValue(ValueAt(v, u))|)
            else count == None
  {
    ValueRangeIsLookup(bytes, ws, v, decode, path);
    LookupValueFirst(v, decode, path);
    LookupDecodes(v, decode, path);
    var r := LookupValue(v, decode, path);
    if r.Somewhere? {
      assert FirstMatch(v, r.trail, decode, path);
    }
  }

  // ---------- any buffer ----------

  /** A range holds exactly one well-formed value, without blanks before it. */
  ghost predicate HoldsOneValue(bytes: seq<byte>, r: Search) {
    r.Found? ==> exists v :: Printed(bytes, r.lo, v) && r.hi == r.lo + |PrintValue(v)|
  }

  lemma ValueWithoutBlanks(bytes: seq<byte>, i: nat)
    requires BlanksEnd(bytes, i) == i && ValueEnd(bytes, i).Some?
    ensures HoldsOneValue(bytes, Found(i, ValueEnd(bytes, i).value))
  {
    var ws, v := ValueSound(bytes, i);
    if ws != [] {
      AtFirst(bytes, i, ws);
    }
  }

  lemma {:induction false} FoundInValue<K>(bytes: seq<byte>, i: nat, decode: Decoder<K>, path: seq<K>)
    requires path != [] && BlanksEnd(bytes, i) == i
    ensures HoldsOneValue(bytes, FindInValue(bytes, i, decode, path))
    decreases |path|, 0, 0
  {
    if |path| > 1 {
      FoundInObject(bytes, i, decode, path[1..]);
    } else if ValueEnd(bytes, i).Some? {
      ValueWithoutBlanks(bytes, i);
    }
  }

  lemma {:induction false} FoundInMembers<K>(bytes: seq<byte>, i: nat, decode: Decoder<K>, path: seq<K>)
    requires path != []
    ensures HoldsOneValue(bytes, FindInMembers(bytes, i, decode, path))
    decreases |path|, 1, |bytes| - i
  {
    if i < |bytes| && KeyAt(bytes, i, decode).Some? && LabelEnd(bytes, i).Some? {
      var start := BlanksEnd(bytes, LabelEnd(bytes, i).value);
      BlanksTwice(bytes, LabelEnd(bytes, i).value);
      FoundInValue(bytes, start, decode, path);
      if ItemEnd(bytes, start).Some? {
        FoundInMembers(bytes, ItemEnd(bytes, start).value + 1, decode, path);
      }
      MemberAnswers(bytes, i, start, decode, path);
    }
  }

  /** The answer of one member is that of its value, or of the members behind it. */
  lemma MemberAnswers<K>(bytes: seq<byte>, i: nat, start: nat, decode: Decoder<K>, path: seq<K>)
    requires path != [] && LabelEnd(bytes, i).Some? && start == BlanksEnd(bytes, LabelEnd(bytes, i).value)
    ensures var r := FindInMembers(bytes, i, decode, path);
            || !r.Found?
            || r == FindInValue(bytes, start, decode, path)
            || (ItemEnd(bytes, start).Some? && r == FindInMembers(bytes, ItemEnd(bytes, start).value + 1, decode, path))
  {
  }

  /** Whatever the buffer holds, a range that the search answers with is one well-formed value. */
  lemma {:induction false} FoundInObject<K>(bytes: seq<byte>, i: nat, decode: Decoder<K>, path: seq<K>)
    requires path != []
    ensures HoldsOneValue(bytes, FindInObject(bytes, i, decode, path))
    decreases |path|, 2, 0
  {
    FoundInMembers(bytes, BlanksEnd(bytes, BlanksEnd(bytes, i) + 1), decode, path);
  }
}
