/** SSH connect strings: the host string `create_docker_context` stores in a Docker context
    (`ssh://user@host:port`) and `ssh_splitter`, which takes such a string apart again. */
module SshHost {
  import opened PyStr

  const Scheme := "ssh://"

  /** `create_docker_context`'s defaults for the login user and the SSH port. */
  const DefaultUser := "ubuntu"
  const DefaultPort := 22

  /** The `(user, host, path)` triple `ssh_splitter` returns. */
  datatype SshTarget = SshTarget(user: string, host: string, path: string)

  /** The connect string with every `ssh://` found by one `replace` pass deleted. */
  function StripScheme(s: string): string {
    Replace(s, Scheme, "")
  }

  /** `ssh_splitter`: delete the scheme, cut at the first `:` (the path is what follows it),
      then cut what precedes it at the last `@` (the user is what precedes that). It is total,
      and the host it returns can be compared with a bare IP address: it never holds a `:` or
      an `@`. */
  function SshSplit(s: string): (t: SshTarget)
    ensures ':' !in t.host && '@' !in t.host && ':' !in t.user
  {
    var body := StripScheme(s);
    var head := Partition(body, ':');
    var who := RPartition(head.before, '@');
    SshTarget(who.before, who.after, head.after)
  }

  // Every scheme-free body has one of four shapes: with or without a user, with or without
  // a path. The four lemmas below give the split of each shape, so together they pin
  // `SshSplit` down on every input.

  lemma SplitUserHostPath(s: string, u: string, h: string, p: string)
    requires StripScheme(s) == u + "@" + h + ":" + p
    requires ':' !in u && ':' !in h && '@' !in h
    ensures SshSplit(s) == SshTarget(u, h, p)
  {
    assert u + "@" + h + ":" + p == (u + "@" + h) + [':'] + p;
    PartitionOf(u + "@" + h, ':', p);
    RPartitionOf(u, '@', h);
  }

  lemma SplitHostPath(s: string, h: string, p: string)
    requires StripScheme(s) == h + ":" + p
    requires ':' !in h && '@' !in h
    ensures SshSplit(s) == SshTarget("", h, p)
  {
    PartitionOf(h, ':', p);
  }

  lemma SplitUserHost(s: string, u: string, h: string)
    requires StripScheme(s) == u + "@" + h
    requires ':' !in u && ':' !in h && '@' !in h
    ensures SshSplit(s) == SshTarget(u, h, "")
  {
    RPartitionOf(u, '@', h);
  }

  lemma SplitHostOnly(s: string, h: string)
    requires StripScheme(s) == h
    requires ':' !in h && '@' !in h
    ensures SshSplit(s) == SshTarget("", h, "")
  {
  }

  /** No `ssh://` starts at position `i` of `head:p` when `head` holds no `:`, `p` holds no
      `ssh://` and does not start with `//`. */
  lemma NoSchemeAt(head: string, p: string, i: nat)
    requires ':' !in head && !Occurs(p, Scheme) && !(|p| >= 2 && p[..2] == "//")
    ensures !HasAt(head + [':'] + p, i, Scheme)
  {
    var body := head + [':'] + p;
    var sep := |head|;
    if i + 6 <= |body| {
      var w := body[i..i + 6];
      if i + 3 < sep {
        assert w[3] == head[i + 3] != Scheme[3];
      } else if i + 3 == sep {
        assert p[..2] == [p[0], p[1]];
        assert w[4] == p[0] && w[5] == p[1];
        assert w[4] != Scheme[4] || w[5] != Scheme[5];
      } else if i <= sep {
        assert w[sep - i] == ':' != Scheme[sep - i];
      } else {
        var j := i - sep - 1;
        assert !HasAt(p, j, Scheme);
        assert forall k :: 0 <= k < 6 ==> w[k] == p[j + k];
        assert w == p[j..j + 6];
      }
    }
  }

  /** A body built as `u@h:p` holds no `ssh://` unless `p` does or `p` starts with `//`
      (then `h` could end in `ssh` and an occurrence would straddle the `:`). */
  lemma NoSchemeInBody(u: string, h: string, p: string)
    requires ':' !in u && ':' !in h
    requires !Occurs(p, Scheme)
    requires !(|p| >= 2 && p[..2] == "//")
    ensures !Occurs(u + "@" + h + ":" + p, Scheme)
  {
    var head := u + "@" + h;
    assert u + "@" + h + ":" + p == head + [':'] + p;
    assert ':' !in head;
    forall i: nat | i <= |head + [':'] + p|
      ensures !HasAt(head + [':'] + p, i, Scheme)
    {
      NoSchemeAt(head, p, i);
    }
  }

  /** Round trip: splitting `ssh://u@h:p` gives back `(u, h, p)`. */
  lemma {:induction false} HostStringRoundTrip(u: string, h: string, p: string)
    requires ':' !in u && ':' !in h && '@' !in h
    requires !Occurs(p, Scheme)
    requires !(|p| >= 2 && p[..2] == "//")
    ensures SshSplit(Scheme + u + "@" + h + ":" + p) == SshTarget(u, h, p)
  {
    var body := u + "@" + h + ":" + p;
    assert Scheme + u + "@" + h + ":" + p == Scheme + body;
    ReplaceLeading(Scheme, body, "");
    NoSchemeInBody(u, h, p);
    ReplaceAbsent(body, Scheme, "");
    SplitUserHostPath(Scheme + body, u, h, p);
  }

  /** The Docker host string `create_docker_context` builds for `host` (the instance's IP). */
  function ContextHost(host: string, port: int, user: string): string {
    Scheme + user + "@" + host + ":" + IntToString(port)
  }

  /** A context created for an address is split back into that address, the user and the
      port, whatever the port: `str(port)` never holds an `s` or a `/`. */
  lemma ContextHostParses(host: string, port: int, user: string)
    requires ':' !in user && ':' !in host && '@' !in host
    ensures SshSplit(ContextHost(host, port, user)) == SshTarget(user, host, IntToString(port))
  {
    var p := IntToString(port);
    assert '/' !in p;
    AbsentCharBlocks(p, Scheme, 4);
    if |p| >= 2 {
      assert p[..2][0] == p[0] != '/';
    }
    HostStringRoundTrip(user, host, p);
  }

  /** A bare `ssh://user@host` (no port) splits into the user, the host and an empty path. */
  lemma {:induction false} SchemeUserHostRoundTrip(u: string, h: string)
    requires ':' !in u && ':' !in h && '@' !in h
    ensures SshSplit(Scheme + u + "@" + h) == SshTarget(u, h, "")
  {
    var body := u + "@" + h;
    assert Scheme + u + "@" + h == Scheme + body;
    ReplaceLeading(Scheme, body, "");
    assert ':' !in body;
    AbsentCharBlocks(body, Scheme, 3);
    ReplaceAbsent(body, Scheme, "");
    SplitUserHost(Scheme + body, u, h);
  }

  // The connect strings the repository's tests split, with the triples they expect. Each
  // lemma takes the test's string as a parameter so that the proof goes through the lemmas
  // above instead of unfolding the string functions character by character.

  lemma SplitterExampleWithScheme(s: string)
    requires s == "ssh://test_user@1.0.1.1:22"
    ensures SshSplit(s) == SshTarget("test_user", "1.0.1.1", "22")
  {
    var u, h, p := "test_user", "1.0.1.1", "22";
    assert s == Scheme + u + "@" + h + ":" + p;
    AbsentCharBlocks(p, Scheme, 4);
    assert p[..2] == p;
    HostStringRoundTrip(u, h, p);
  }

  lemma SplitterExampleWithoutScheme(s: string)
    requires s == "test_user@1.0.1.1:22"
    ensures SshSplit(s) == SshTarget("test_user", "1.0.1.1", "22")
  {
    var u, h, p := "test_user", "1.0.1.1", "22";
    assert s == u + "@" + h + ":" + p;
    assert ':' !in u && ':' !in h && '@' !in h;
    AbsentCharBlocks(s, Scheme, 4);
    ReplaceAbsent(s, Scheme, "");
    SplitUserHostPath(s, u, h, p);
  }

  lemma SplitterExampleWithoutUser(s: string)
    requires s == "ssh://1.0.1.1:22"
    ensures SshSplit(s) == SshTarget("", "1.0.1.1", "22")
  {
    var h, p := "1.0.1.1", "22";
    var body := h + ":" + p;
    assert s == Scheme + body;
    assert ':' !in h && '@' !in h && '/' !in body;
    SchemeBodySplit(body, h, p);
  }

  /** `ssh://` followed by a scheme-free `h:p` splits into no user, `h` and `p`. */
  lemma SchemeBodySplit(body: string, h: string, p: string)
    requires body == h + ":" + p && ':' !in h && '@' !in h && '/' !in body
    ensures SshSplit(Scheme + body) == SshTarget("", h, p)
  {
    ReplaceLeading(Scheme, body, "");
    AbsentCharBlocks(body, Scheme, 4);
    ReplaceAbsent(body, Scheme, "");
    SplitHostPath(Scheme + body, h, p);
  }

  lemma SplitterExampleWithoutPort(s: string)
    requires s == "ssh://1.0.1.1"
    ensures SshSplit(s) == SshTarget("", "1.0.1.1", "")
  {
    var h := "1.0.1.1";
    assert s == Scheme + h;
    ReplaceLeading(Scheme, h, "");
    assert ':' !in h && '@' !in h;
    AbsentCharBlocks(h, Scheme, 4);
    ReplaceAbsent(h, Scheme, "");
    SplitHostOnly(s, h);
  }
}
