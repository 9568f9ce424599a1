/** The two bounded loops of `docker_utils.py` that talk to Docker: `login_into_ecr` (at
    most 500 attempts to reach the engine, at most 3 logins) and `wait_for_token` (at most
    10 outputs of the container logs, each searched for `?token=` and a hex token). What the
    engine and the container answer is passed in, one answer per attempt. */
module DockerRegistry {
  import opened Wrappers
  import opened PyStr

  // ---------------------------------------------------------------------------------------
  // The Jupyter token

  const TokenMarker := "?token="
  const MaxTokenReads := 10

  /** The characters of the class `[a-f0-9]`. */
  predicate IsHex(c: char) {
    '0' <= c <= '9' || 'a' <= c <= 'f'
  }

  /** The regular expression `\?token=([a-f0-9]+)` matches at `i`. */
  predicate TokenAt(logs: string, i: nat) {
    HasAt(logs, i, TokenMarker) && i + |TokenMarker| < |logs| && IsHex(logs[i + |TokenMarker|])
  }

  /** The longest prefix of `s` made of hex characters: what the greedy `+` takes. */
  function HexRun(s: string): (r: string)
    ensures |r| <= |s| && r == s[..|r|]
    ensures forall i :: 0 <= i < |r| ==> IsHex(r[i])
    ensures |r| < |s| ==> !IsHex(s[|r|])
  {
    if |s| == 0 || !IsHex(s[0]) then ""
    else
      var rest := HexRun(s[1..]);
      assert ([s[0]] + rest)[1..] == rest;
      [s[0]] + rest
  }

  /** `re.search(...)` from position `from` on: the group of the leftmost match. */
  function SearchFrom(logs: string, from: nat): (r: Option<string>)
    ensures r.None? <==> forall i: nat :: from <= i ==> !TokenAt(logs, i)
    ensures r.Some? ==> exists i: nat :: from <= i && TokenAt(logs, i)
                          && (forall j: nat :: from <= j < i ==> !TokenAt(logs, j))
                          && r.value == HexRun(logs[i + |TokenMarker|..])
    decreases |logs| - from
  {
    if from + |TokenMarker| >= |logs| then None
    else if TokenAt(logs, from) then Some(HexRun(logs[from + |TokenMarker|..]))
    else SearchFrom(logs, from + 1)
  }

  /** The token one read of the logs yields: `match.group(1)`, or None without a match. A
      token is never empty and holds lowercase hex digits only. */
  function SearchToken(logs: string): (r: Option<string>)
    ensures r.Some? ==> |r.value| >= 1 && forall k :: 0 <= k < |r.value| ==> IsHex(r.value[k])
    ensures r.None? <==> forall i: nat :: !TokenAt(logs, i)
  {
    var r := SearchFrom(logs, 0);
    if r.Some? then
      var i: nat :| TokenAt(logs, i) && r.value == HexRun(logs[i + |TokenMarker|..]);
      assert logs[i + |TokenMarker|..][0] == logs[i + |TokenMarker|];
      r
    else r
  }

  /** Logs that hold `?token=t`, with no `?` earlier, yield `t` when `t` is a non-empty hex
      string ended by a non-hex character or by the end of the logs. */
  lemma TokenFromLogLine(before: string, t: string, after: string)
    requires '?' !in before
    requires |t| >= 1 && forall k :: 0 <= k < |t| ==> IsHex(t[k])
    requires |after| > 0 ==> !IsHex(after[0])
    ensures SearchToken(before + TokenMarker + t + after) == Some(t)
  {
    var logs := before + TokenMarker + t + after;
    var k := |before|;
    var tail := t + after;
    assert logs == before + (TokenMarker + tail);
    forall i: nat | i < k
      ensures !TokenAt(logs, i)
    {
      NoTokenInPrefix(before, TokenMarker + tail, i);
    }
    TokenAtMarker(before, tail);
    SearchFromSkips(logs, 0, k);
    assert logs[k + |TokenMarker|..] == tail;
    HexRunOf(tail, t, after);
  }

  /** No match starts inside a prefix free of `?`. */
  lemma NoTokenInPrefix(before: string, rest: string, i: nat)
    requires '?' !in before && i < |before|
    ensures !TokenAt(before + rest, i)
  {
    var logs := before + rest;
    assert logs[i] == before[i] != '?';
    if i + |TokenMarker| <= |logs| {
      assert logs[i..i + |TokenMarker|][0] == logs[i];
    }
  }

  /** A match starts where the marker is followed by a hex digit. */
  lemma TokenAtMarker(before: string, tail: string)
    requires |tail| > 0 && IsHex(tail[0])
    ensures TokenAt(before + (TokenMarker + tail), |before|)
  {
    var logs := before + (TokenMarker + tail);
    var k := |before|;
    assert logs[k..k + |TokenMarker|] == TokenMarker;
    assert logs[k + |TokenMarker|] == tail[0];
  }

  /** The search from `from` returns the match at `k` when none starts earlier. */
  lemma {:induction false} SearchFromSkips(logs: string, from: nat, k: nat)
    requires from <= k && TokenAt(logs, k)
    requires forall i: nat :: from <= i < k ==> !TokenAt(logs, i)
    ensures SearchFrom(logs, from) == Some(HexRun(logs[k + |TokenMarker|..]))
    decreases k - from
  {
    if from < k {
      SearchFromSkips(logs, from + 1, k);
    }
  }

  /** The greedy run over `t + after` is `t` when `after` does not go on with a hex digit. */
  lemma {:induction false} HexRunOf(s: string, t: string, after: string)
    requires s == t + after
    requires forall k :: 0 <= k < |t| ==> IsHex(t[k])
    requires |after| > 0 ==> !IsHex(after[0])
    ensures HexRun(s) == t
    decreases |t|
  {
    if |t| > 0 {
      assert s[0] == t[0];
      assert s[1..] == t[1..] + after;
      HexRunOf(s[1..], t[1..], after);
    } else {
      assert s == after;
    }
  }

  /** The reference answer of `wait_for_token`: the token of the first read that has one. */
  function FirstToken(outputs: seq<string>): (r: Option<string>)
    ensures r.None? <==> forall k :: 0 <= k < |outputs| ==> SearchToken(outputs[k]).None?
  {
    if |outputs| == 0 then None
    else if SearchToken(outputs[0]).Some? then SearchToken(outputs[0])
    else
      assert forall k :: 1 <= k < |outputs| ==> outputs[k] == outputs[1..][k - 1];
      FirstToken(outputs[1..])
  }

  /** `wait_for_token`: `outputs[k]` is what the `k`-th call of `container.logs()` returns.
      The logs are read at most ten times; the first read with a match gives the token,
      and after ten outputs without one the answer is None. */
  method WaitForToken(outputs: seq<string>) returns (token: Option<string>, attempts: nat)
    requires |outputs| >= MaxTokenReads
    ensures 1 <= attempts <= MaxTokenReads
    ensures token == FirstToken(outputs[..attempts])
    ensures token.Some? ==> token == SearchToken(outputs[attempts - 1])
    ensures token.None? ==> attempts == MaxTokenReads
  {
    attempts := 0;
    while attempts < MaxTokenReads
      invariant 0 <= attempts <= MaxTokenReads
      invariant FirstToken(outputs[..attempts]).None?
    {
      var found := SearchToken(outputs[attempts]);
      ReadStep(outputs, attempts);
      attempts := attempts + 1;
      if found.Some? {
        return found, attempts;
      }
    }
    return None, attempts;
  }

  /** Reading the `n`-th output after `n` reads without a token gives that read's token. */
  lemma ReadStep(outputs: seq<string>, n: nat)
    requires n < |outputs| && FirstToken(outputs[..n]).None?
    ensures FirstToken(outputs[..n + 1]) == SearchToken(outputs[n])
  {
    FirstTokenExtend(outputs[..n], outputs[n]);
    assert outputs[..n + 1] == outputs[..n] + [outputs[n]];
  }

  /** One more read after outputs without a token gives that read's token. */
  lemma FirstTokenExtend(outputs: seq<string>, next: string)
    requires FirstToken(outputs).None?
    ensures FirstToken(outputs + [next]) == SearchToken(next)
  {
    var all := outputs + [next];
    assert forall k :: 0 <= k < |outputs| ==> all[k] == outputs[k];
    FirstTokenAfterMisses(all, |outputs|);
  }

  lemma {:induction false} FirstTokenAfterMisses(outputs: seq<string>, n: nat)
    requires n < |outputs|
    requires forall k :: 0 <= k < n ==> SearchToken(outputs[k]).None?
    ensures FirstToken(outputs) == FirstToken(outputs[n..])
    decreases n
  {
    if n > 0 {
      assert SearchToken(outputs[0]).None?;
      assert forall k :: 0 <= k < n - 1 ==> outputs[1..][k] == outputs[k + 1];
      FirstTokenAfterMisses(outputs[1..], n - 1);
      assert outputs[1..][n - 1..] == outputs[n..];
    }
  }

  // ---------------------------------------------------------------------------------------
  // Logging into the registry

  const MaxClientAttempts := 500
  const MaxLoginAttempts := 3
  const LoginSucceeded := "Login Succeeded"
  const HttpsScheme := "https://"

  /** `username, password = decoded.split(':')`: exactly two fields, or ValueError. */
  function Credentials(decoded: string): (r: Option<(string, string)>)
    ensures r.Some? <==> multiset(decoded)[':'] == 1
    ensures r.Some? ==> decoded == r.value.0 + ":" + r.value.1
  {
    var parts := Split(decoded, ':');
    SplitCount(decoded, ':');
    if |parts| == 2 then
      assert parts[1..] == [parts[1]];
      Some((parts[0], parts[1]))
    else None
  }

  /** The decoded authorization token `user:password` gives back both halves. */
  lemma CredentialsRoundTrip(user: string, password: string)
    requires ':' !in user && ':' !in password
    ensures Credentials(user + ":" + password) == Some((user, password))
  {
    assert user + ":" + password == user + [':'] + password;
    SplitOnlySeparator(user, ':', password);
  }

  /** What one `docker_client.login(...)` call does: return a reply carrying a `Status`
      (or a reply without one), or raise APIError. */
  datatype LoginReply = Reply(status: Option<string>) | ApiError

  predicate Succeeded(reply: LoginReply) {
    reply == Reply(Some(LoginSucceeded))
  }

  /** Within the three logins, a reply without a `Status` comes before any `Login
      Succeeded`: reading `ret['Status']` on it raises KeyError, which nothing catches. */
  predicate StatusMissingFirst(replies: seq<LoginReply>) {
    exists k :: 0 <= k < MaxLoginAttempts && k < |replies| && replies[k] == Reply(None)
                && NoneSucceeded(replies, k)
  }

  /** None of the first `n` replies is `Login Succeeded`. */
  predicate NoneSucceeded(replies: seq<LoginReply>, n: nat)
    requires n <= |replies|
  {
    forall j :: 0 <= j < n ==> !Succeeded(replies[j])
  }

  datatype LoginError =
    | MalformedToken        // the ValueError of the two-name unpacking
    | NoDockerClient        // "Unable to create docker client for ECR"
    | MissingStatus         // KeyError: a reply without `Status`

  /** What `login_into_ecr` hands back: the client of the `clientAttempts`-th attempt, logged
      in or not; and what it sent to the registry. */
  datatype Session = Session(clientAttempts: nat, loginAttempts: nat, loggedIn: bool,
                             registry: string, password: string)

  /** `login_into_ecr(registry)`, with the decoded authorization token, whether each attempt
      to reach the Docker engine succeeds, and the engine's reply to each login. At most 500
      clients are tried and failing them all raises; at most three logins are tried and the
      loop stops at the first `Login Succeeded`. A failed login is not reported: the client
      is returned all the same. A reply without a `Status` is a KeyError. */
  method LoginIntoEcr(decoded: string, registry: string, clientOk: seq<bool>,
                      replies: seq<LoginReply>) returns (r: Result<Session, LoginError>)
    requires |clientOk| >= MaxClientAttempts && |replies| >= MaxLoginAttempts
    ensures r == Failure(MalformedToken) <==> Credentials(decoded).None?
    ensures r == Failure(NoDockerClient) <==>
              Credentials(decoded).Some? && forall k :: 0 <= k < MaxClientAttempts ==> !clientOk[k]
    ensures r.Success? ==> var s := r.value;
              && 1 <= s.clientAttempts <= MaxClientAttempts && clientOk[s.clientAttempts - 1]
              && (forall k :: 0 <= k < s.clientAttempts - 1 ==> !clientOk[k])
              && 1 <= s.loginAttempts <= MaxLoginAttempts
              && (s.loggedIn <==> Succeeded(replies[s.loginAttempts - 1]))
              && (forall k :: 0 <= k < s.loginAttempts - 1 ==> !Succeeded(replies[k]))
              && (!s.loggedIn ==> s.loginAttempts == MaxLoginAttempts)
              && s.registry == Replace(registry, HttpsScheme, "")
              && s.password == Credentials(decoded).value.1
    ensures r.Success? ==> forall k :: 0 <= k < r.value.loginAttempts ==> replies[k] != Reply(None)
    ensures r == Failure(MissingStatus) <==>
              && Credentials(decoded).Some?
              && (exists k :: 0 <= k < MaxClientAttempts && clientOk[k])
              && StatusMissingFirst(replies)
  {
    var creds := Credentials(decoded);
    if creds.None? {
      return Failure(MalformedToken);
    }
    var clients := 0;
    var connected := false;
    while clients < MaxClientAttempts && !connected
      invariant 0 <= clients <= MaxClientAttempts
      invariant connected ==> clients >= 1 && clientOk[clients - 1]
      invariant forall k :: 0 <= k < clients - (if connected then 1 else 0) ==> !clientOk[k]
    {
      connected := clientOk[clients];
      clients := clients + 1;
    }
    if !connected {
      return Failure(NoDockerClient);
    }
    var host := Replace(registry, HttpsScheme, "");
    var logins := 0;
    var loggedIn := false;
    while logins < MaxLoginAttempts && !loggedIn
      invariant 0 <= logins <= MaxLoginAttempts
      invariant loggedIn ==> logins >= 1 && Succeeded(replies[logins - 1])
      invariant forall k :: 0 <= k < logins - (if loggedIn then 1 else 0) ==> !Succeeded(replies[k])
      invariant forall k :: 0 <= k < logins ==> replies[k] != Reply(None)
    {
      var reply := replies[logins];
      logins := logins + 1;
      if reply == Reply(None) {
        assert NoneSucceeded(replies, logins - 1);
        assert StatusMissingFirst(replies);
        return Failure(MissingStatus);
      }
      loggedIn := Succeeded(reply);
    }
    NoStatusMissing(replies, logins, loggedIn);
    return Success(Session(clients, logins, loggedIn, host, creds.value.1));
  }

  /** The login loop ended without a KeyError: either the `n`-th reply succeeded, or all
      three were tried; every reply read had a `Status`. Then no status-less reply comes
      before the first success within the three logins. */
  lemma NoStatusMissing(replies: seq<LoginReply>, n: nat, loggedIn: bool)
    requires 1 <= n <= MaxLoginAttempts <= |replies|
    requires forall k :: 0 <= k < n ==> replies[k] != Reply(None)
    requires loggedIn ==> Succeeded(replies[n - 1])
    requires !loggedIn ==> n == MaxLoginAttempts
    ensures !StatusMissingFirst(replies)
  {
    if loggedIn {
      forall k | 0 <= k < MaxLoginAttempts && replies[k] == Reply(None)
        ensures !NoneSucceeded(replies, k)
      {
        assert n - 1 < k;
      }
    }
  }

  /** A registry given with its `https://` prefix is logged into by its bare host name. */
  lemma RegistryLosesScheme(host: string)
    requires !Occurs(host, HttpsScheme)
    ensures Replace(HttpsScheme + host, HttpsScheme, "") == host
  {
    ReplaceLeading(HttpsScheme, host, "");
    ReplaceAbsent(host, HttpsScheme, "");
  }
}
