/** What the Wavelog client makes of HTTP outcomes: retries, and which answers are final. */
module WavelogClient {
  import opened Results

  datatype WavelogError =
    | InvalidUrl                 // no request could be made
    | Http                       // no response: connect, timeout, broken transfer
    | Status(code: nat)
    | Rejected(reason: string)
    | NoActiveStation
    | BadResponse

  predicate IsRetryable(e: WavelogError) { e.Http? || (e.Status? && e.code >= 500) }

  predicate IsSuccess(code: nat) { 200 <= code < 300 }

  // ----------------------------------------------------------- single requests

  /** A response body as the deserializer sees it; a body that could not be read is unparseable. */
  datatype QsoBody = Unparseable | QsoBody(status: Option<string>, reason: Option<string>)

  datatype QsoReply = NoUrl | NoReply | QsoReply(code: nat, body: QsoBody)

  function QsoOutcome(reply: QsoReply): Result<(), WavelogError> {
    match reply
    case NoUrl => Err(InvalidUrl)
    case NoReply => Err(Http)
    case QsoReply(code, body) =>
      if !IsSuccess(code) then Err(Status(code))
      else if body.Unparseable? then Err(BadResponse)
      else if body.status == Some("created") then Ok(())
      else Err(Rejected(if body.reason.Some? then body.reason.value
                        else if body.status.Some? then body.status.value
                        else "unknown"))
  }

  datatype Station = Station(id: string, active: bool)

  datatype StationsReply = NoStationsUrl | NoStations | StationsReply(code: nat, stations: Option<seq<Station>>)

  function FirstActive(stations: seq<Station>): Option<string> {
    if stations == [] then None
    else if stations[0].active then Some(stations[0].id)
    else FirstActive(stations[1..])
  }

  function LookupOutcome(reply: StationsReply): Result<string, WavelogError> {
    match reply
    case NoStationsUrl => Err(InvalidUrl)
    case NoStations => Err(Http)
    case StationsReply(code, stations) =>
      if !IsSuccess(code) then Err(Status(code))
      else if stations.None? then Err(BadResponse)
      else
        match FirstActive(stations.value)
        case Some(id) => Ok(id)
        case None => Err(NoActiveStation)
  }

  // ------------------------------------------------------------------ retries

  /** Seconds slept in front of each attempt. */
  const RETRY_SLEEPS: seq<nat> := [0, 1, 4]

  predicate Decisive<T>(r: Result<T, WavelogError>) { r.Err? ==> !IsRetryable(r.error) }

  /** The result of a series of attempts: the first decisive one, or else the last. */
  function Settle<T>(attempts: seq<Result<T, WavelogError>>): (r: Result<T, WavelogError>)
    requires attempts != []
  {
    if |attempts| == 1 || Decisive(attempts[0]) then attempts[0] else Settle(attempts[1..])
  }

  /**
   The retry loop over what each attempt would yield. It makes at most three attempts, stops
   at the first success or non-retryable error, and always has an error to return otherwise.
   */
  method WithRetries<T>(attempts: seq<Result<T, WavelogError>>)
    returns (r: Result<T, WavelogError>, made: nat, slept: nat)
    requires |attempts| == |RETRY_SLEEPS|
    ensures 1 <= made <= 3 && r == attempts[made - 1]
    ensures forall i :: 0 <= i < made - 1 ==>
              attempts[i].Err?
              && (attempts[i].error.Http? || (attempts[i].error.Status? && attempts[i].error.code >= 500))
    ensures made < 3 ==> r.Ok? || !(r.error.Http? || (r.error.Status? && r.error.code >= 500))
    ensures slept == if made == 1 then 0 else if made == 2 then 1 else 5
    ensures r == Settle(attempts)
  {
    var lastErr: Option<WavelogError> := None;
    slept := 0;
    assert attempts[0..] == attempts;
    for idx := 0 to |RETRY_SLEEPS|
      invariant forall i :: 0 <= i < idx ==> attempts[i].Err? && IsRetryable(attempts[i].error)
      invariant idx > 0 ==> lastErr == Some(attempts[idx - 1].error)
      invariant slept == if idx <= 1 then 0 else if idx == 2 then 1 else 5
      invariant idx < 3 ==> Settle(attempts) == Settle(attempts[idx..])
      invariant idx == 3 ==> Settle(attempts) == attempts[2]
    {
      assert idx < 2 ==> attempts[idx..][1..] == attempts[idx + 1..];
      slept := slept + RETRY_SLEEPS[idx];
      match attempts[idx] {
        case Ok(v) => return Ok(v), idx + 1, slept;
        case Err(e) =>
          if !IsRetryable(e) {
            return Err(e), idx + 1, slept;
          }
          lastErr := Some(e);
      }
    }
    r := Err(lastErr.value);
    made := 3;
  }

  // --------------------------------------------------------------- one QSO push

  /** Where the station id comes from: pinned or cached, or looked up with retries. */
  datatype Lookup = Known(id: string) | Fetched(replies: seq<StationsReply>)

  function Resolve(lookup: Lookup): Result<string, WavelogError>
    requires lookup.Fetched? ==> lookup.replies != []
  {
    match lookup
    case Known(id) => Ok(id)
    case Fetched(replies) => Settle(seq(|replies|, i requires 0 <= i < |replies| => LookupOutcome(replies[i])))
  }

  function PushQso(posts: seq<QsoReply>): Result<(), WavelogError>
    requires posts != []
  {
    Settle(seq(|posts|, i requires 0 <= i < |posts| => QsoOutcome(posts[i])))
  }

  /** Resolve the station, then submit. Without a station id nothing is posted. */
  function PushOne(lookup: Lookup, posts: seq<QsoReply>): Result<(), WavelogError>
    requires (lookup.Fetched? ==> lookup.replies != []) && posts != []
  {
    match Resolve(lookup)
    case Err(e) => Err(e)
    case Ok(_) => PushQso(posts)
  }

  /** The outcomes after which the spool entry is removed. */
  predicate IsFinal(r: Result<(), WavelogError>) { r.Ok? || r.error.Rejected? }

  lemma {:induction false} SettleIs<T>(attempts: seq<Result<T, WavelogError>>) returns (k: nat)
    requires attempts != []
    ensures k < |attempts| && Settle(attempts) == attempts[k]
    ensures forall i :: 0 <= i < k ==> !Decisive(attempts[i])
    ensures k < |attempts| - 1 ==> Decisive(attempts[k])
  {
    if |attempts| == 1 || Decisive(attempts[0]) {
      k := 0;
    } else {
      var j := SettleIs(attempts[1..]);
      k := j + 1;
      forall i | 0 <= i < k
        ensures !Decisive(attempts[i])
      {
        assert i > 0 ==> attempts[i] == attempts[1..][i - 1];
      }
    }
  }

  /** A POST that got no answer, or an error of the server. */
  predicate NoUse(reply: QsoReply) { reply.NoReply? || (reply.QsoReply? && reply.code >= 500) }

  lemma NotDecisiveIffNoUse(reply: QsoReply)
    ensures !Decisive(QsoOutcome(reply)) <==> reply.NoReply? || (reply.QsoReply? && reply.code >= 500)
  {
  }

  lemma NoStationsUse(reply: StationsReply)
    ensures !Decisive(LookupOutcome(reply)) <==> reply.NoStations? || (reply.StationsReply? && reply.code >= 500)
  {
  }

  function QsoOutcomes(posts: seq<QsoReply>): (outcomes: seq<Result<(), WavelogError>>)
    ensures |outcomes| == |posts| && forall i :: 0 <= i < |posts| ==> outcomes[i] == QsoOutcome(posts[i])
  {
    seq(|posts|, i requires 0 <= i < |posts| => QsoOutcome(posts[i]))
  }

  /**
   Post one QSO, with retries. Another attempt follows a reply if and only if there was none, or its
   code is 500 or more: never a 2xx, whatever its body says, nor a 3xx or 4xx, nor a bad URL.
   */
  method PostQso(posts: seq<QsoReply>) returns (r: Result<(), WavelogError>, made: nat, slept: nat)
    requires |posts| == 3
    ensures r == PushQso(posts) && 1 <= made <= 3 && r == QsoOutcome(posts[made - 1])
    ensures made > 1 <==> posts[0].NoReply? || (posts[0].QsoReply? && posts[0].code >= 500)
    ensures made > 2 <==> made > 1 && (posts[1].NoReply? || (posts[1].QsoReply? && posts[1].code >= 500))
    ensures slept == if made == 1 then 0 else if made == 2 then 1 else 5
  {
    r, made, slept := WithRetries(QsoOutcomes(posts));
    assert QsoOutcomes(posts) == seq(|posts|, i requires 0 <= i < |posts| => QsoOutcome(posts[i]));
    forall i | 0 <= i < 3
      ensures !Decisive(QsoOutcomes(posts)[i]) <==> NoUse(posts[i])
    {
      NotDecisiveIffNoUse(posts[i]);
    }
  }

  /** What each of the three attempts of a request would yield. */
  predicate ThreeEach(lookup: Lookup, posts: seq<QsoReply>) {
    |posts| == 3 && (lookup.Fetched? ==> |lookup.replies| == 3)
  }

  /** Resolve the station, with retries of its own, and submit with retries if that succeeds. */
  method Push(lookup: Lookup, posts: seq<QsoReply>) returns (r: Result<(), WavelogError>)
    requires ThreeEach(lookup, posts)
    ensures r == PushOne(lookup, posts)
  {
    if lookup.Fetched? {
      var replies := lookup.replies;
      var station, _, _ := WithRetries(seq(|replies|, i requires 0 <= i < |replies| => LookupOutcome(replies[i])));
      if station.Err? {
        return Err(station.error);
      }
    }
    var posted, _, _ := PostQso(posts);
    r := posted;
  }

  /** A failed station lookup is never final, whatever Wavelog sends. */
  lemma LookupErrorIsNotFinal(lookup: Lookup)
    requires lookup.Fetched? ==> lookup.replies != []
    ensures Resolve(lookup).Err? ==> !Resolve(lookup).error.Rejected?
  {
    if lookup.Fetched? {
      var replies := lookup.replies;
      var k := SettleIs(seq(|replies|, i requires 0 <= i < |replies| => LookupOutcome(replies[i])));
    }
  }

  /** The first station flagged active. */
  lemma {:induction false} FirstActiveIs(stations: seq<Station>)
    ensures match FirstActive(stations)
            case None => forall i :: 0 <= i < |stations| ==> !stations[i].active
            case Some(id) =>
              exists i :: && 0 <= i < |stations| && stations[i].active && id == stations[i].id
                          && forall j :: 0 <= j < i ==> !stations[j].active
  {
    if stations != [] && !stations[0].active {
      FirstActiveIs(stations[1..]);
      assert forall j :: 0 < j < |stations| ==> stations[j] == stations[1..][j - 1];
      if FirstActive(stations).Some? {
        var i :| && 0 <= i < |stations[1..]| && stations[1..][i].active
                 && FirstActive(stations).value == stations[1..][i].id
                 && forall j :: 0 <= j < i ==> !stations[1..][j].active;
        assert stations[i + 1] == stations[1..][i];
        assert forall j :: 0 <= j < i + 1 ==> j == 0 || stations[j] == stations[1..][j - 1];
      }
    }
  }

  /** A reply that names the active station. */
  predicate NamesStation(reply: StationsReply, id: string) {
    && reply.StationsReply? && 200 <= reply.code < 300 && reply.stations.Some?
    && FirstActive(reply.stations.value) == Some(id)
  }

  /**
   A lookup resolves to a station exactly if some 2xx reply has it as its first active one, behind
   nothing but missing replies and codes of 500 or more.
   */
  lemma ResolvesIffActive(replies: seq<StationsReply>, id: string)
    requires replies != []
    ensures Resolve(Fetched(replies)) == Ok(id) <==>
            exists k :: && 0 <= k < |replies| && NamesStation(replies[k], id)
                        && forall i :: 0 <= i < k ==>
                             replies[i].NoStations? || (replies[i].StationsReply? && replies[i].code >= 500)
  {
    var outcomes := seq(|replies|, i requires 0 <= i < |replies| => LookupOutcome(replies[i]));
    var k := SettleIs(outcomes);
    forall i | 0 <= i < |replies|
      ensures !Decisive(outcomes[i]) <==>
              replies[i].NoStations? || (replies[i].StationsReply? && replies[i].code >= 500)
    {
      NoStationsUse(replies[i]);
    }
    if outcomes[k] == Ok(id) {
      assert NamesStation(replies[k], id);
    }
    if j :| && 0 <= j < |replies| && NamesStation(replies[j], id)
            && forall i :: 0 <= i < j ==>
                 replies[i].NoStations? || (replies[i].StationsReply? && replies[i].code >= 500) {
      assert outcomes[j] == Ok(id);
      assert j == k;
    }
  }

  /** Wavelog took the request and answered it in a form the client understands. */
  predicate Answered(reply: QsoReply) { reply.QsoReply? && 200 <= reply.code < 300 && reply.body.QsoBody? }

  lemma FirstAnswer(posts: seq<QsoReply>) returns (k: nat)
    requires posts != []
    ensures k < |posts| && PushQso(posts) == QsoOutcome(posts[k])
    ensures forall i :: 0 <= i < k ==> NoUse(posts[i])
    ensures k < |posts| - 1 ==> !NoUse(posts[k])
  {
    var outcomes := seq(|posts|, i requires 0 <= i < |posts| => QsoOutcome(posts[i]));
    k := SettleIs(outcomes);
    forall i | 0 <= i < |posts|
      ensures !Decisive(outcomes[i]) <==> NoUse(posts[i])
    {
      NotDecisiveIffNoUse(posts[i]);
    }
  }

  /**
   A push is final exactly when the station resolved and some POST was answered after nothing but
   missing replies and codes of 500 or more. Every transport error, 3xx, 4xx, 5xx and unparseable
   body retains the entry.
   */
  lemma FinalIffAnswered(lookup: Lookup, posts: seq<QsoReply>)
    requires (lookup.Fetched? ==> lookup.replies != []) && posts != []
    ensures IsFinal(PushOne(lookup, posts)) <==>
            && Resolve(lookup).Ok?
            && exists k :: && 0 <= k < |posts|
                           && posts[k].QsoReply? && 200 <= posts[k].code < 300 && posts[k].body.QsoBody?
                           && forall i :: 0 <= i < k ==>
                                posts[i].NoReply? || (posts[i].QsoReply? && posts[i].code >= 500)
  {
    LookupErrorIsNotFinal(lookup);
    var k := FirstAnswer(posts);
    if Answered(posts[k]) {
      assert forall i :: 0 <= i < k ==> NoUse(posts[i]);
    }
    if j :| 0 <= j < |posts| && Answered(posts[j]) && forall i :: 0 <= i < j ==> NoUse(posts[i]) {
      assert !NoUse(posts[j]);
      assert j == k;
    }
  }

  /** A push succeeds exactly when the first such answer is a 2xx whose status is `created`. */
  lemma OkIffCreated(lookup: Lookup, posts: seq<QsoReply>)
    requires (lookup.Fetched? ==> lookup.replies != []) && posts != []
    ensures PushOne(lookup, posts).Ok? <==>
            && Resolve(lookup).Ok?
            && exists k :: && 0 <= k < |posts|
                           && posts[k].QsoReply? && 200 <= posts[k].code < 300 && posts[k].body.QsoBody?
                           && posts[k].body.status == Some("created")
                           && forall i :: 0 <= i < k ==>
                                posts[i].NoReply? || (posts[i].QsoReply? && posts[i].code >= 500)
  {
    var k := FirstAnswer(posts);
    if QsoOutcome(posts[k]).Ok? {
      assert forall i :: 0 <= i < k ==> NoUse(posts[i]);
    }
    if j :| && 0 <= j < |posts| && Answered(posts[j]) && posts[j].body.status == Some("created")
            && forall i :: 0 <= i < j ==> NoUse(posts[i]) {
      assert !NoUse(posts[j]);
      assert j == k;
    }
  }

  /** The reason of a rejection is the one Wavelog gives, or else the status it gives. */
  lemma RejectionReason(code: nat, status: Option<string>, reason: Option<string>)
    requires 200 <= code < 300 && status != Some("created")
    ensures reason.Some? ==> QsoOutcome(QsoReply(code, QsoBody(status, reason))) == Err(Rejected(reason.value))
    ensures reason.None? && status.Some? ==>
              QsoOutcome(QsoReply(code, QsoBody(status, reason))) == Err(Rejected(status.value))
    ensures reason.None? && status.None? ==>
              QsoOutcome(QsoReply(code, QsoBody(status, reason))) == Err(Rejected("unknown"))
  {
  }
}
