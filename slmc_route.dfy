/** The registry lookup endpoint (src/app/api/slmc/verify/route.ts): a signed-in
    caller passes a registration number, the endpoint asks the medical council's
    registry once per registration category, and answers with the first entry whose
    number matches exactly, or with the reason there is none.

    The registry is a parameter: `fetch(category, number)` is what one request for
    that category returned. */
module SlmcVerifyRoute {
  import opened Common
  import opened JsString
  import opened DoctorTypes
  import Qualifications

  /** The registration categories, queried in this order. */
  const Categories: seq<string> := ["SEC39BMP", "SEC39BDP", "SEC29", "ACT15", "SEC41", "SEC43"]

  const UnauthorizedMessage: string := "Unauthorized"

  /** The reasons a lookup does not verify, each sent as its `error` text. */
  datatype Failure = RegNoRequired | NoRegistration | MultipleRegistrations | RegistryUnavailable

  function FailureText(f: Failure): string {
    match f
    case RegNoRequired => "Registration number is required"
    case NoRegistration => "No SLMC registration found for this number."
    case MultipleRegistrations => "Multiple registrations match. Enter your full SLMC registration number."
    case RegistryUnavailable => "Unable to verify SLMC registration. Please try again."
  }

  /** One registry record; `qualifications` is absent when the record carries none. */
  datatype RegistryEntry = RegistryEntry(
    regNo: string,
    regDate: string,
    lastName: string,
    otherNames: string,
    qualifications: Option<string>)

  /** An element of the array the registry returned: a record, or `null`. */
  datatype Element = Missing | Entry(entry: RegistryEntry)

  /** What one request for one category produced. */
  datatype FetchOutcome =
    | Rows(elements: seq<Element>)  // a JSON array
    | NotAnArray                    // a JSON value that is not an array
    | HttpError                     // a response whose status is not ok
    | NetworkFailure                // the request threw, timed out or the body was not JSON

  type Registry = (string, string) -> FetchOutcome

  /** The body the endpoint answers with. */
  datatype Body =
    | Unauthorized(message: string)
    | Verified(practitioner: SlmcPractitioner)
    | Unverified(failure: Failure)

  datatype Response = Response(status: nat, body: Body)

  /** A category's contribution: its array, or nothing when the request failed. */
  function CategoryRows(outcome: FetchOutcome): seq<Element> {
    if outcome.Rows? then outcome.elements else []
  }

  /** The arrays of all categories, concatenated in category order: the first
      category's rows come first, and the result is empty iff every category
      contributed nothing. */
  function Gather(cats: seq<string>, fetch: Registry, regNo: string): (all: seq<Element>)
    ensures cats != [] ==> var first := CategoryRows(fetch(cats[0], regNo));
              |first| <= |all| && all[..|first|] == first
    ensures all == [] <==> forall c :: c in cats ==> CategoryRows(fetch(c, regNo)) == []
  {
    if cats == [] then []
    else
      var rest := Gather(cats[1..], fetch, regNo);
      assert forall c :: c in cats <==> c == cats[0] || c in cats[1..];
      CategoryRows(fetch(cats[0], regNo)) + rest
  }

  /** Gathering distributes over concatenation of the category list: every
      category's rows follow those of the categories before it. */
  lemma {:induction false} GatherAppend(a: seq<string>, b: seq<string>, fetch: Registry, regNo: string)
    ensures Gather(a + b, fetch, regNo) == Gather(a, fetch, regNo) + Gather(b, fetch, regNo)
  {
    if a == [] {
      assert a + b == b;
    } else {
      var head := CategoryRows(fetch(a[0], regNo));
      calc {
        Gather(a + b, fetch, regNo);
        { assert (a + b)[0] == a[0] && (a + b)[1..] == a[1..] + b; }
        head + Gather(a[1..] + b, fetch, regNo);
        { GatherAppend(a[1..], b, fetch, regNo); }
        head + (Gather(a[1..], fetch, regNo) + Gather(b, fetch, regNo));
        (head + Gather(a[1..], fetch, regNo)) + Gather(b, fetch, regNo);
      }
    }
  }

  /** One category contributes exactly its own rows. */
  lemma GatherSingle(c: string, fetch: Registry, regNo: string)
    ensures Gather([c], fetch, regNo) == CategoryRows(fetch(c, regNo))
  {
    assert [c][1..] == [];
  }

  /** The lookup depends on the registry only at the given number. */
  lemma {:induction false} GatherDependsOnlyOnNumber(cats: seq<string>, f: Registry, g: Registry, regNo: string)
    requires forall c :: c in cats ==> f(c, regNo) == g(c, regNo)
    ensures Gather(cats, f, regNo) == Gather(cats, g, regNo)
  {
    if cats != [] {
      assert cats[0] in cats;
      GatherDependsOnlyOnNumber(cats[1..], f, g, regNo);
    }
  }

  predicate Matches(e: RegistryEntry, trimmed: string) {
    Trim(e.regNo) == trimmed
  }

  /** A record whose number differs: the search looks at it and moves on. */
  predicate Passes(x: Element, trimmed: string) {
    x.Entry? && !Matches(x.entry, trimmed)
  }

  /** How `find` ended: at a matching record, at a `null` (reading its number
      throws), or after looking at every element. */
  datatype Search = MatchAt(at: nat) | MissingAt(at: nat) | NoMatch

  /** `find` with the exact-number test, from position `i` on: the first element
      that is a match or a `null` decides. */
  function FindFrom(all: seq<Element>, trimmed: string, i: nat): (r: Search)
    requires i <= |all|
    ensures r.MatchAt? ==> i <= r.at < |all| && all[r.at].Entry? && Matches(all[r.at].entry, trimmed)
    ensures r.MissingAt? ==> i <= r.at < |all| && all[r.at].Missing?
    ensures !r.NoMatch? ==> forall j :: i <= j < r.at ==> Passes(all[j], trimmed)
    ensures r.NoMatch? <==> forall j :: i <= j < |all| ==> Passes(all[j], trimmed)
    decreases |all| - i
  {
    if i == |all| then NoMatch
    else if all[i].Missing? then MissingAt(i)
    else if Matches(all[i].entry, trimmed) then MatchAt(i)
    else FindFrom(all, trimmed, i + 1)
  }

  function FindExact(all: seq<Element>, trimmed: string): Search {
    FindFrom(all, trimmed, 0)
  }

  /** The element `find` stops at is the first one that is not a passing record. */
  lemma FindExactStopsAtFirst(all: seq<Element>, trimmed: string, k: nat)
    requires k < |all| && !Passes(all[k], trimmed)
    requires forall j :: 0 <= j < k ==> Passes(all[j], trimmed)
    ensures FindExact(all, trimmed) == if all[k].Missing? then MissingAt(k) else MatchAt(k)
  {
  }

  /** `[otherNames, lastName].filter(Boolean).join(" ")`. */
  function FullName(otherNames: string, lastName: string): (r: string)
    ensures |r| == |otherNames| + |lastName| + (if otherNames != [] && lastName != [] then 1 else 0)
    ensures r == [] <==> otherNames == [] && lastName == []
    ensures r[..|otherNames|] == otherNames
    ensures r[|r| - |lastName|..] == lastName
    ensures otherNames != [] && lastName != [] ==> r[|otherNames|] == ' '
  {
    if otherNames != [] && lastName != [] then otherNames + " " + lastName
    else otherNames + lastName
  }

  /** The practitioner record built from a registry entry. */
  function Practitioner(e: RegistryEntry): (p: SlmcPractitioner)
    ensures p.regNo == e.regNo && p.regDate == e.regDate
    ensures p.lastName == e.lastName && p.otherNames == e.otherNames
    ensures p.fullName == FullName(e.otherNames, e.lastName)
    ensures p.qualifications.Some? <==> e.qualifications.Some?
    ensures p.qualifications.Some? ==>
      var q := p.qualifications.value;
      Qualifications.OuterSeparatorsCut(
        Qualifications.CollapseEmptyItems(Qualifications.ReplaceTags(e.qualifications.value)), q) &&
      Qualifications.NoTag(q) && Qualifications.NoEmptyItem(q) &&
      (q == [] || (!Qualifications.IsSeparator(q[0]) && !Qualifications.IsSeparator(q[|q| - 1])))
  {
    SlmcPractitioner(
      e.regNo, e.regDate, e.lastName, e.otherNames,
      FullName(e.otherNames, e.lastName),
      match e.qualifications
      case Some(q) => Some(Qualifications.SanitizeQualifications(q))
      case None => None)
  }

  /** The endpoint: `hasSession` is whether the caller is signed in, `regNo` the
      `regNo` query parameter if present. */
  function Handle(hasSession: bool, regNo: Option<string>, fetch: Registry): (r: Response)
    ensures r.status in {200, 400, 401, 502}
    ensures r.status == 401 <==> !hasSession
    ensures r.status == 401 ==> r.body == Unauthorized(UnauthorizedMessage)
    ensures hasSession ==> (r.status == 400 <==> regNo.None? || Trim(regNo.value) == [])
    ensures r.status == 400 ==> r.body == Unverified(RegNoRequired)
    ensures r.status == 502 ==> r.body == Unverified(RegistryUnavailable)
    ensures r.body.Verified? ==>
      r.status == 200 && regNo.Some? && Trim(r.body.practitioner.regNo) == Trim(regNo.value)
    ensures r.status == 200 && r.body.Unverified? ==>
      r.body.failure in {NoRegistration, MultipleRegistrations}
  {
    if !hasSession then Response(401, Unauthorized(UnauthorizedMessage))
    else if regNo.None? || Trim(regNo.value) == [] then Response(400, Unverified(RegNoRequired))
    else
      var trimmed := Trim(regNo.value);
      var all := Gather(Categories, fetch, trimmed);
      match FindExact(all, trimmed)
      case MatchAt(i) => Response(200, Verified(Practitioner(all[i].entry)))
      case MissingAt(_) => Response(502, Unverified(RegistryUnavailable))
      case NoMatch =>
        if |all| == 0 then Response(200, Unverified(NoRegistration))
        else Response(200, Unverified(MultipleRegistrations))
  }

  /** Surrounding white space in the parameter changes nothing: only the trimmed
      number is looked up and compared. */
  lemma LookupSeesTrimmedNumber(hasSession: bool, regNo: string, fetch: Registry)
    ensures Handle(hasSession, Some(regNo), fetch) == Handle(hasSession, Some(Trim(regNo)), fetch)
  {
    TrimIdempotent(regNo);
  }

  /** The registry is asked about the trimmed number only, in the six categories:
      two registries that agree there give the same answer. */
  lemma RegistryAskedOnlyForTrimmedNumber(hasSession: bool, regNo: string, f: Registry, g: Registry)
    requires forall c :: c in Categories ==> f(c, Trim(regNo)) == g(c, Trim(regNo))
    ensures Handle(hasSession, Some(regNo), f) == Handle(hasSession, Some(regNo), g)
  {
    var t := Trim(regNo);
    GatherDependsOnlyOnNumber(Categories, f, g, t);
    assert Gather(Categories, f, t) == Gather(Categories, g, t);
  }

  /** Without a session the answer is 401 whatever was asked and whatever the
      registry holds. */
  lemma SessionCheckedFirst(regNo: Option<string>, f: Registry, g: Registry)
    ensures Handle(false, regNo, f) == Handle(false, None, g)
    ensures Handle(false, regNo, f).status == 401
  {
  }

  /** Some record matches, and every element before it is a passing record. */
  predicate MatchReached(all: seq<Element>, t: string) {
    exists k :: 0 <= k < |all| && all[k].Entry? && Matches(all[k].entry, t) &&
      (forall j :: 0 <= j < k ==> Passes(all[j], t))
  }

  /** Some element is `null`, and every element before it is a passing record. */
  predicate NullReached(all: seq<Element>, t: string) {
    exists k :: 0 <= k < |all| && all[k].Missing? &&
      (forall j :: 0 <= j < k ==> Passes(all[j], t))
  }

  lemma SearchOutcomes(all: seq<Element>, t: string)
    ensures FindExact(all, t).MatchAt? <==> MatchReached(all, t)
    ensures FindExact(all, t).MissingAt? <==> NullReached(all, t)
  {
    if MatchReached(all, t) {
      var k :| 0 <= k < |all| && all[k].Entry? && Matches(all[k].entry, t) &&
        (forall j :: 0 <= j < k ==> Passes(all[j], t));
      FindExactStopsAtFirst(all, t, k);
    }
    if NullReached(all, t) {
      var k :| 0 <= k < |all| && all[k].Missing? && (forall j :: 0 <= j < k ==> Passes(all[j], t));
      FindExactStopsAtFirst(all, t, k);
    }
  }

  /** The answer for a well-formed request, described by what the registry returned
      rather than by how the endpoint searches it. */
  lemma Outcomes(regNo: string, fetch: Registry)
    requires Trim(regNo) != []
    ensures var t := Trim(regNo);
            var all := Gather(Categories, fetch, t);
            var r := Handle(true, Some(regNo), fetch);
            && (r.body.Verified? <==> MatchReached(all, t))
            && (r.status == 502 <==> NullReached(all, t))
            && (r == Response(200, Unverified(NoRegistration)) <==> all == [])
            && (r == Response(200, Unverified(MultipleRegistrations)) <==>
                  all != [] && forall j :: 0 <= j < |all| ==> Passes(all[j], t))
  {
    SearchOutcomes(Gather(Categories, fetch, Trim(regNo)), Trim(regNo));
  }

  /** With several records matching exactly, the first one in category order is
      the answer. */
  lemma FirstExactMatchWins(regNo: string, fetch: Registry, k: nat)
    requires Trim(regNo) != []
    requires var all := Gather(Categories, fetch, Trim(regNo));
             k < |all| && all[k].Entry? && Matches(all[k].entry, Trim(regNo)) &&
             forall j :: 0 <= j < k ==> Passes(all[j], Trim(regNo))
    ensures Handle(true, Some(regNo), fetch)
         == Response(200, Verified(Practitioner(Gather(Categories, fetch, Trim(regNo))[k].entry)))
  {
    FindExactStopsAtFirst(Gather(Categories, fetch, Trim(regNo)), Trim(regNo), k);
  }
}
