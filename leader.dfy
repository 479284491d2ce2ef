/**
 * is_leader (root copy only): GET <ETCD_CLIENT_URL>/v2/stats/self, raise on
 * an HTTP error status, read the JSON body's "state" field and compare it
 * with "StateLeader". The HTTP exchange is an input; every way the Python
 * call chain raises is a Failure.
 */
module Leader {
  import opened Common

  const LeaderState: string := "StateLeader"
  const StatsPath: string := "/v2/stats/self"

  /** A JSON value as r.json() returns it, reduced to what the lookup can tell apart. */
  datatype Json = JString(s: string) | JObject(fields: map<string, Json>) | JOther

  /**
   * What the local etcd member answered: nothing (connection refused,
   * timeout), or a status code and a body that is JSON (Some) or not (None).
   */
  datatype Reply = NoResponse(error: Error) | Response(status: nat, body: Option<Json>)

  /** "%s/v2/stats/self" % url, where Python prints None as "None". */
  function StatsUrl(clientUrl: Option<string>): string
  {
    (if clientUrl.Some? then clientUrl.value else "None") + StatsPath
  }

  predicate StartsWith(s: string, p: string)
  {
    |p| <= |s| && s[..|p|] == p
  }

  /**
   * The ASCII characters unicode.lstrip() drops: space, tab through
   * carriage return, and the separators 0x1c through 0x1f.
   */
  predicate IsSpace(c: char)
  {
    c == ' ' || '\t' <= c <= '\r' || 0x1c <= c as int <= 0x1f
  }

  /** str.lstrip(): the string from its first non-blank character on. */
  function LStrip(s: string): (r: string)
    ensures |r| <= |s| && r == s[|s| - |r|..]
    ensures r != [] ==> !IsSpace(r[0])
    ensures forall i :: 0 <= i < |s| - |r| ==> IsSpace(s[i])
    decreases |s|
  {
    if s != [] && IsSpace(s[0]) then LStrip(s[1..]) else s
  }

  /** str.lower() on ASCII letters. */
  function Lower(s: string): (r: string)
    ensures |r| == |s|
    ensures forall i :: 0 <= i < |s| ==> (r[i] == s[i] <==> !('A' <= s[i] <= 'Z'))
  {
    seq(|s|, i requires 0 <= i < |s| => if 'A' <= s[i] <= 'Z' then (s[i] as int + 32) as char else s[i])
  }

  /**
   * requests drops leading blanks and only sends a URL whose scheme,
   * compared case-insensitively, is http:// or https://; it raises on any
   * other.
   */
  predicate Sendable(url: string)
  {
    var u := Lower(LStrip(url));
    StartsWith(u, "http://") || StartsWith(u, "https://")
  }

  /**
   * The peer state found in a reply, if the Python lookup gets that far.
   * A URL with no `:` has no scheme (requests' MissingSchema); any other
   * URL that cannot be sent has a scheme requests has no adapter for or no
   * host (InvalidSchema or InvalidURL).
   */
  function PeerState(clientUrl: Option<string>, reply: Reply): (r: Result<Json>)
    ensures r.Success? ==>
      Sendable(StatsUrl(clientUrl)) && reply.Response? && !(400 <= reply.status < 600) &&
      reply.body.Some? && reply.body.value.JObject? && "state" in reply.body.value.fields &&
      r.value == reply.body.value.fields["state"]
    ensures (Sendable(StatsUrl(clientUrl)) && reply.Response? && !(400 <= reply.status < 600) &&
             reply.body.Some? && reply.body.value.JObject? && "state" in reply.body.value.fields) ==>
      r == Success(reply.body.value.fields["state"])
    ensures reply.NoResponse? && Sendable(StatsUrl(clientUrl)) ==> r == Failure(reply.error)
  {
    var url := StatsUrl(clientUrl);
    if !Sendable(url) then
      if ':' !in LStrip(url) then Failure(Error("Invalid URL '" + url + "': No schema supplied"))
      else Failure(Error("Invalid URL or no connection adapter for '" + url + "'"))
    else match reply
      case NoResponse(e) => Failure(e)
      case Response(status, body) =>
        if 400 <= status < 600 then Failure(Error("HTTP error status"))
        else if body.None? then Failure(Error("No JSON object could be decoded"))
        else if !body.value.JObject? then Failure(Error("JSON body is not an object"))
        else if "state" !in body.value.fields then Failure(Error("state"))
        else Success(body.value.fields["state"])
  }

  /**
   * is_leader. The answer is "leader" exactly when the reported state is
   * the string StateLeader; any other state, well-formed or not, is "not
   * leader"; and it raises exactly when fetching the state raises.
   */
  function IsLeader(clientUrl: Option<string>, reply: Reply): (r: Result<bool>)
    ensures r == Success(true) <==> PeerState(clientUrl, reply) == Success(JString(LeaderState))
    ensures r.Failure? <==> PeerState(clientUrl, reply).Failure?
    ensures r.Failure? ==> r.error == PeerState(clientUrl, reply).error
  {
    match PeerState(clientUrl, reply)
    case Failure(e) => Failure(e)
    case Success(state) => Success(state == JString(LeaderState))
  }

  /**
   * With ETCD_CLIENT_URL unset the request goes to "None/v2/stats/self",
   * which has no scheme, so the check raises requests' MissingSchema
   * whatever etcd would answer.
   */
  lemma UnsetUrlRaises(reply: Reply)
    ensures IsLeader(None, reply) == Failure(Error("Invalid URL '" + StatsUrl(None) + "': No schema supplied"))
  {
    var url := StatsUrl(None);
    assert url == "None" + StatsPath;
    assert url[0] == 'N' && !IsSpace(url[0]);
    assert LStrip(url) == url;
    var u := Lower(url);
    assert u[0] == 'n';
    assert u[..7][0] != "http://"[0];
    assert u[..8][0] != "https://"[0];
    assert ':' !in url by {
      assert ':' !in "None" && ':' !in StatsPath;
    }
  }

  /** The check succeeds only for a sendable URL, an answer, a non-error status and a JSON object with a state. */
  lemma AnswerNeedsStateField(clientUrl: Option<string>, reply: Reply)
    requires IsLeader(clientUrl, reply).Success?
    ensures clientUrl.Some? && Sendable(clientUrl.value + StatsPath)
    ensures reply.Response? && !(400 <= reply.status < 600)
    ensures reply.body.Some? && reply.body.value.JObject? && "state" in reply.body.value.fields
  {
    if clientUrl.None? {
      UnsetUrlRaises(reply);
    }
  }
}
