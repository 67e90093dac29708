/**
 * Section resolution in `manpage` (main.go, lines 94-135): with section
 * "0" the bot probes sections 1 to 9 in order and keeps the first one the
 * server answers with 200; with any other section it makes one request and
 * turns a failure into a reply.
 */
module Resolver {

  import opened Wrappers
  import opened Bytes
  import opened Fetcher

  /** The fetch oracle: getManPage of a section and a command. */
  type Fetch = (seq<byte>, seq<byte>) -> FetchResult

  /** How resolution ends: a page to render under a section, or a plain reply and nothing else. */
  datatype Outcome = Found(section: seq<byte>, body: seq<byte>) | Reply(text: seq<byte>)

  /** `strconv.Itoa(i)` for the one-digit sections the probe uses. */
  function Digit(i: nat): (r: seq<byte>)
    requires i <= 9
    ensures |r| == 1 && r[0] as int == 48 + i
  {
    [(48 + i) as byte]
  }

  /** The server has section `i` of the command. */
  predicate Hit(fetch: Fetch, command: seq<byte>, i: nat)
    requires i <= 9
  {
    fetch(Digit(i), command).status == 200
  }

  /** The smallest section in from..9 the server has, if any. */
  function FirstHit(fetch: Fetch, command: seq<byte>, from: nat): (r: Option<nat>)
    requires 1 <= from <= 10
    ensures r.Some? ==> from <= r.value <= 9 && Hit(fetch, command, r.value)
    ensures r.Some? ==> forall j | from <= j < r.value :: !Hit(fetch, command, j)
    ensures r.None? <==> forall j | from <= j <= 9 :: !Hit(fetch, command, j)
    decreases 10 - from
  {
    if from == 10 then None
    else if Hit(fetch, command, from) then Some(from)
    else FirstHit(fetch, command, from + 1)
  }

  /** The sections 1..n as the probe asks for them. */
  function ProbeOrder(n: nat): (r: seq<seq<byte>>)
    requires n <= 9
    ensures |r| == n && forall j | 0 <= j < n :: r[j] == Digit(j + 1)
  {
    seq(n, j requires 0 <= j < n => Digit(j + 1))
  }

  const NotFoundPrefix: seq<byte> := Ascii("No manpage found for ")
  const InternalError: seq<byte> := Ascii("Internal server error")
  const UnknownError: seq<byte> := Ascii("Unknown error")

  /** The reply to one request for an explicit section. */
  function Classify(r: FetchResult, section: seq<byte>, command: seq<byte>): Outcome
  {
    if r.failed then Reply(InternalError)
    else if r.status != 200 then
      if r.status == 404 then Reply(NotFoundPrefix + section + [Space] + command)
      else if r.status == 500 then Reply(InternalError)
      else Reply(UnknownError)
    else Found(section, r.body)
  }

  /** How resolution of `section` and `command` ends. */
  function Resolution(fetch: Fetch, section: seq<byte>, command: seq<byte>): Outcome
  {
    if section == AnySection then
      match FirstHit(fetch, command, 1)
      case Some(k) => Found(Digit(k), fetch(Digit(k), command).body)
      case None => Reply(NotFoundPrefix + command)
    else
      Classify(fetch(section, command), section, command)
  }

  /** The sections requested during resolution, in request order. */
  function Requested(fetch: Fetch, section: seq<byte>, command: seq<byte>): seq<seq<byte>>
  {
    if section == AnySection then
      match FirstHit(fetch, command, 1)
      case Some(k) => ProbeOrder(k)
      case None => ProbeOrder(9)
    else
      [section]
  }

  /**
   * Lines 95-135 of `manpage`: the probe loop or the single request, then
   * the replies for the failures. `requested` logs the section of every
   * getManPage call.
   */
  method ResolveSection(fetch: Fetch, section: seq<byte>, command: seq<byte>)
    returns (outcome: Outcome, requested: seq<seq<byte>>)
    ensures outcome == Resolution(fetch, section, command)
    ensures requested == Requested(fetch, section, command)
  {
    var body: seq<byte> := [];
    var status := 0;
    var resolved := section;
    requested := [];
    if section == AnySection {
      var i := 1;
      while i < 10
        invariant 1 <= i <= 10
        invariant resolved == AnySection
        invariant requested == ProbeOrder(i - 1)
        invariant FirstHit(fetch, command, 1) == FirstHit(fetch, command, i)
        invariant i > 1 ==> status == fetch(Digit(i - 1), command).status
      {
        var r := fetch(Digit(i), command);
        status, body := r.status, r.body;
        requested := requested + [Digit(i)];
        assert requested == ProbeOrder(i);
        if status == 200 {
          resolved := Digit(i);
          break;
        }
        i := i + 1;
      }
      if status != 200 {
        outcome := Reply(NotFoundPrefix + command);
        return;
      }
    } else {
      var r := fetch(section, command);
      status, body := r.status, r.body;
      requested := [section];
      if r.failed {
        outcome := Reply(InternalError);
        return;
      }
      if status != 200 {
        if status == 404 {
          outcome := Reply(NotFoundPrefix + section + [Space] + command);
        } else if status == 500 {
          outcome := Reply(InternalError);
        } else {
          outcome := Reply(UnknownError);
        }
        return;
      }
    }
    outcome := Found(resolved, body);
  }

  /**
   * With section "0", a page is found exactly when some section 1..9 has
   * it; it is then the smallest such section, with that section's body,
   * and sections 1 to it are the only ones requested.
   */
  lemma ProbeFindsSmallest(fetch: Fetch, command: seq<byte>)
    ensures Resolution(fetch, AnySection, command).Found? <==> exists k | 1 <= k <= 9 :: Hit(fetch, command, k)
    ensures forall k | 1 <= k <= 9 && Hit(fetch, command, k) && (forall j | 1 <= j < k :: !Hit(fetch, command, j)) ::
      && Resolution(fetch, AnySection, command) == Found(Digit(k), fetch(Digit(k), command).body)
      && Requested(fetch, AnySection, command) == ProbeOrder(k)
  {
    match FirstHit(fetch, command, 1)
    case Some(k) =>
      forall k' | 1 <= k' <= 9 && Hit(fetch, command, k') && (forall j | 1 <= j < k' :: !Hit(fetch, command, j))
        ensures k' == k
      {
      }
    case None =>
  }

  /**
   * With section "0" and no section 1..9 answering 200 (a transport error
   * counts as a miss), all nine are requested and the only reply names the
   * command alone.
   */
  lemma ProbeExhausted(fetch: Fetch, command: seq<byte>)
    requires forall j | 1 <= j <= 9 :: !Hit(fetch, command, j)
    ensures Resolution(fetch, AnySection, command) == Reply(NotFoundPrefix + command)
    ensures Requested(fetch, AnySection, command) == ProbeOrder(9)
  {
    assert FirstHit(fetch, command, 1) == None;
  }

  /**
   * An explicit section makes exactly one request, and its result decides:
   * a transport error or 500 is "Internal server error", 404 names the
   * section and the command, any other status but 200 is "Unknown error",
   * and 200 renders the body under that section.
   */
  lemma ExplicitSection(fetch: Fetch, section: seq<byte>, command: seq<byte>)
    requires section != AnySection
    ensures Requested(fetch, section, command) == [section]
    ensures var r := fetch(section, command);
      && (r.failed ==> Resolution(fetch, section, command) == Reply(InternalError))
      && (!r.failed && r.status == 404 ==>
            Resolution(fetch, section, command) == Reply(NotFoundPrefix + section + [Space] + command))
      && (!r.failed && r.status == 500 ==> Resolution(fetch, section, command) == Reply(InternalError))
      && (!r.failed && r.status !in {200, 404, 500} ==> Resolution(fetch, section, command) == Reply(UnknownError))
      && (!r.failed && r.status == 200 ==> Resolution(fetch, section, command) == Found(section, r.body))
  {
  }
}
