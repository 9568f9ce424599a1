/** Instance tags (`utils.py`): parsing the project allow-list `get_project_tags` reads from
    object storage, and the tag-list rewrite of `add_instance_tags`. */
module InstanceTags {
  import opened PyStr

  /** One `{'Key': ..., 'Value': ...}` entry of `TagSpecifications[0]['Tags']`. Two tags are
      equal when both fields are, as with Python's dict equality. */
  datatype Tag = Tag(key: string, value: string)

  const UserKey := "user"
  const UserIdKey := "user_id"
  const ProjectKey := "project"

  predicate IsUserTag(t: Tag) {
    t.key == UserKey
  }

  // ---------------------------------------------------------------------------------------
  // Project allow-list

  /** `get_project_tags` once the object body has been fetched and decoded: strip the body,
      then split it on `,`. Joining the tags back gives the stripped body, and there is one
      tag more than there are commas. */
  function ParseProjectTags(body: string): (tags: seq<string>)
    ensures Join(tags, ',') == Strip(body)
    ensures |tags| == multiset(Strip(body))[','] + 1
    ensures forall i :: 0 <= i < |tags| ==> ',' !in tags[i]
  {
    SplitCount(Strip(body), ',');
    Split(Strip(body), ',')
  }

  /** A body of three comma-separated tags with no surrounding whitespace parses into
      exactly those three tags. */
  lemma ParseThreeTags(a: string, b: string, c: string)
    requires ',' !in a && ',' !in b && ',' !in c
    requires |a| > 0 && !IsSpace(a[0]) && |c| > 0 && !IsSpace(c[|c| - 1])
    ensures ParseProjectTags(a + "," + b + "," + c) == [a, b, c]
  {
    var body := a + "," + b + "," + c;
    assert body[0] == a[0] && body[|body| - 1] == c[|c| - 1];
    assert LStrip(body) == body;
    assert RStrip(body) == body;
    assert [a, b, c][1..] == [b, c] && [b, c][1..] == [c];
    assert Join([b, c], ',') == b + [','] + c;
    assert Join([a, b, c], ',') == a + [','] + (b + [','] + c);
    assert body == a + [','] + (b + [','] + c);
    SplitJoin([a, b, c], ',');
  }

  /** The allow-list object of the repository's tests. */
  lemma ProjectTagsExample(body: string)
    requires body == "dev,eki_training,test_project"
    ensures ParseProjectTags(body) == ["dev", "eki_training", "test_project"]
  {
    var a, b, c := "dev", "eki_training", "test_project";
    assert body == a + "," + b + "," + c;
    assert ',' !in a && ',' !in b && ',' !in c;
    ParseThreeTags(a, b, c);
  }

  // ---------------------------------------------------------------------------------------
  // The tag-list rewrite, as written

  /** The position of the first tag equal to `t`: the one `list.remove(t)` deletes. */
  function FirstIndex(tags: seq<Tag>, t: Tag): (i: nat)
    requires t in tags
    ensures i < |tags| && tags[i] == t && t !in tags[..i]
  {
    if tags[0] == t then 0
    else
      var i := 1 + FirstIndex(tags[1..], t);
      assert tags[..i] == [tags[0]] + tags[1..][..i - 1];
      i
  }

  function RemoveAt(tags: seq<Tag>, i: nat): seq<Tag>
    requires i < |tags|
  {
    tags[..i] + tags[i + 1..]
  }

  /** Line 173 of `utils.py`: a comprehension walks the list by position `i` while
      `tags.remove(t)` deletes the first tag equal to the user tag under the cursor; every
      deletion shifts the next tag under the cursor, which then moves past it unseen. */
  function UserTagSweep(tags: seq<Tag>, i: nat): seq<Tag>
    decreases |tags| - i
  {
    if i >= |tags| then tags
    else if IsUserTag(tags[i]) then UserTagSweep(RemoveAt(tags, FirstIndex(tags, tags[i])), i + 1)
    else UserTagSweep(tags, i + 1)
  }

  /** The new trailing tags: `user`, `user_id`, `project`, in that order. */
  function IdentityTags(userName: string, userId: string, project: string): seq<Tag> {
    [Tag(UserKey, userName), Tag(UserIdKey, userId), Tag(ProjectKey, project)]
  }

  /** `add_instance_tags` as written, with the IAM user name and id passed in. */
  function AddInstanceTagsAsWritten(tags: seq<Tag>, project: string, userName: string,
                                    userId: string): (r: seq<Tag>)
    ensures |r| >= 3 && r[|r| - 3..] == IdentityTags(userName, userId, project)
    ensures NonUser(r[..|r| - 3]) == NonUser(tags)
  {
    var swept := UserTagSweep(tags, 0);
    SweepKeepsOthers(tags, 0);
    var r := swept + IdentityTags(userName, userId, project);
    assert r[..|r| - 3] == swept;
    r
  }

  /** The tags that are not `user` tags, in their order. */
  function NonUser(tags: seq<Tag>): (r: seq<Tag>)
    ensures forall i :: 0 <= i < |r| ==> !IsUserTag(r[i])
  {
    if |tags| == 0 then []
    else (if IsUserTag(tags[0]) then [] else [tags[0]]) + NonUser(tags[1..])
  }

  predicate NoUserTag(tags: seq<Tag>) {
    forall i :: 0 <= i < |tags| ==> !IsUserTag(tags[i])
  }

  /** No two `user` tags stand next to each other. */
  predicate NoAdjacentUserTags(tags: seq<Tag>) {
    forall i :: 0 <= i < |tags| - 1 ==> !(IsUserTag(tags[i]) && IsUserTag(tags[i + 1]))
  }

  lemma {:induction false} NonUserAppend(a: seq<Tag>, b: seq<Tag>)
    ensures NonUser(a + b) == NonUser(a) + NonUser(b)
    decreases |a|
  {
    if |a| == 0 {
      assert a + b == b;
    } else {
      assert (a + b)[0] == a[0];
      assert (a + b)[1..] == a[1..] + b;
      NonUserAppend(a[1..], b);
    }
  }

  /** A list without user tags is its own filter. */
  lemma {:induction false} NonUserOfClean(tags: seq<Tag>)
    requires NoUserTag(tags)
    ensures NonUser(tags) == tags
    decreases |tags|
  {
    if |tags| > 0 {
      NonUserOfClean(tags[1..]);
      assert tags == [tags[0]] + tags[1..];
    }
  }

  /** Deleting a user tag does not disturb the other tags. */
  lemma RemoveUserKeepsOthers(tags: seq<Tag>, j: nat)
    requires j < |tags| && IsUserTag(tags[j])
    ensures NonUser(RemoveAt(tags, j)) == NonUser(tags)
  {
    assert tags == tags[..j] + tags[j..];
    NonUserAppend(tags[..j], tags[j..]);
    assert tags[j..][0] == tags[j] && tags[j..][1..] == tags[j + 1..];
    assert NonUser(tags[j..]) == NonUser(tags[j + 1..]);
    NonUserAppend(tags[..j], tags[j + 1..]);
  }

  /** The sweep deletes user tags only: the other tags survive, in their order. */
  lemma {:induction false} SweepKeepsOthers(tags: seq<Tag>, i: nat)
    ensures NonUser(UserTagSweep(tags, i)) == NonUser(tags)
    decreases |tags| - i
  {
    if i < |tags| {
      if IsUserTag(tags[i]) {
        var j := FirstIndex(tags, tags[i]);
        RemoveUserKeepsOthers(tags, j);
        SweepKeepsOthers(RemoveAt(tags, j), i + 1);
      } else {
        SweepKeepsOthers(tags, i + 1);
      }
    }
  }

  /** A suffix of a list without adjacent user tags has none either. */
  lemma NoAdjacentSuffix(tags: seq<Tag>, d: nat)
    requires d <= |tags| && NoAdjacentUserTags(tags)
    ensures NoAdjacentUserTags(tags[d..])
  {
    var tail := tags[d..];
    forall k | 0 <= k < |tail| - 1
      ensures !(IsUserTag(tail[k]) && IsUserTag(tail[k + 1]))
    {
      assert tail[k] == tags[k + d] && tail[k + 1] == tags[k + d + 1];
    }
  }

  /** Deleting the tag under the cursor slides the next one under it. */
  lemma RemoveAtCursor(tags: seq<Tag>, i: nat)
    requires i + 1 < |tags|
    ensures RemoveAt(tags, i)[..i + 1] == tags[..i] + [tags[i + 1]]
    ensures RemoveAt(tags, i)[i + 1..] == tags[i + 2..]
  {
    var next := RemoveAt(tags, i);
    assert |next| == |tags| - 1;
    assert forall k :: 0 <= k < i ==> next[k] == tags[k];
    assert forall k :: i <= k < |next| ==> next[k] == tags[k + 1];
    assert next[..i + 1] == tags[..i] + [tags[i + 1]];
  }

  /** When no two user tags are adjacent, the sweep deletes every one of them. */
  lemma {:induction false} SweepClearsSeparatedUserTags(tags: seq<Tag>, i: nat)
    requires i <= |tags|
    requires NoUserTag(tags[..i])
    requires NoAdjacentUserTags(tags[i..])
    ensures NoUserTag(UserTagSweep(tags, i))
    decreases |tags| - i
  {
    if i == |tags| {
      assert tags[..i] == tags;
    } else if IsUserTag(tags[i]) {
      var j := FirstIndex(tags, tags[i]);
      assert tags[j] == tags[i];
      assert j == i;
      var next := RemoveAt(tags, i);
      if i + 1 < |tags| {
        assert !IsUserTag(tags[i + 1]) by {
          assert tags[i..][0] == tags[i] && tags[i..][1] == tags[i + 1];
        }
        RemoveAtCursor(tags, i);
        NoAdjacentSuffix(tags[i..], 2);
        assert tags[i..][2..] == tags[i + 2..];
        SweepClearsSeparatedUserTags(next, i + 1);
      } else {
        assert next == tags[..i];
      }
    } else {
      assert tags[..i + 1] == tags[..i] + [tags[i]];
      NoAdjacentSuffix(tags[i..], 1);
      assert tags[i..][1..] == tags[i + 1..];
      SweepClearsSeparatedUserTags(tags, i + 1);
    }
  }

  /** What `add_instance_tags` as written promises: the tags that are not user tags keep
      their order, the three identity tags follow, and when no two user tags were adjacent
      (a lone pre-existing user tag in particular) none of the old user tags survives. */
  lemma AddInstanceTagsAsWrittenShape(tags: seq<Tag>, project: string, userName: string,
                                      userId: string)
    ensures var r := AddInstanceTagsAsWritten(tags, project, userName, userId);
            && |r| >= 3
            && r[|r| - 3..] == IdentityTags(userName, userId, project)
            && NonUser(r[..|r| - 3]) == NonUser(tags)
    ensures NoAdjacentUserTags(tags) ==>
              AddInstanceTagsAsWritten(tags, project, userName, userId)
              == NonUser(tags) + IdentityTags(userName, userId, project)
  {
    var swept := UserTagSweep(tags, 0);
    var r := AddInstanceTagsAsWritten(tags, project, userName, userId);
    assert r[..|r| - 3] == swept;
    SweepKeepsOthers(tags, 0);
    if NoAdjacentUserTags(tags) {
      assert tags[0..] == tags;
      SweepClearsSeparatedUserTags(tags, 0);
      NonUserOfClean(swept);
    }
  }

  /** Two adjacent user tags: the sweep deletes the first, the second slides under the
      cursor and is skipped, so a stale user tag survives next to the new one. */
  lemma AdjacentUserTagSurvives(a: string, b: string)
    ensures UserTagSweep([Tag(UserKey, a), Tag(UserKey, b)], 0) == [Tag(UserKey, b)]
  {
    var tags := [Tag(UserKey, a), Tag(UserKey, b)];
    assert FirstIndex(tags, tags[0]) == 0;
    assert RemoveAt(tags, 0) == [Tag(UserKey, b)];
  }

  /** The tag list of the repository's test fixture, a single user tag: the result is
      `user`, `user_id`, `project`, so index 1 holds `user_id`, not `project` as the test
      at tests/test_utils.py line 132 expects. */
  lemma FixtureTagOrder(placeholder: string, project: string, userName: string, userId: string)
    ensures var r := AddInstanceTagsAsWritten([Tag(UserKey, placeholder)], project, userName, userId);
            |r| == 3 && r[0].key == UserKey && r[1].key == UserIdKey && r[2].key == ProjectKey
  {
    LoneUserTagSwept(Tag(UserKey, placeholder));
    assert AddInstanceTagsAsWritten([Tag(UserKey, placeholder)], project, userName, userId)
           == IdentityTags(userName, userId, project);
  }

  /** A lone user tag is swept away. */
  lemma LoneUserTagSwept(t: Tag)
    requires IsUserTag(t)
    ensures UserTagSweep([t], 0) == []
  {
    assert FirstIndex([t], t) == 0;
    assert RemoveAt([t], 0) == [];
  }

  // ---------------------------------------------------------------------------------------
  // The tag-list rewrite as intended

  /** `add_instance_tags` as its comment intends: every pre-existing user tag is removed,
      then `user`, `user_id` and `project` are appended. */
  function AddInstanceTags(tags: seq<Tag>, project: string, userName: string, userId: string)
    : (r: seq<Tag>)
    ensures |r| == |NonUser(tags)| + 3
    ensures r[|r| - 3..] == IdentityTags(userName, userId, project)
    ensures NoUserTag(r[..|r| - 3])
    ensures NonUser(r[..|r| - 3]) == NonUser(tags)
  {
    var kept := NonUser(tags);
    NonUserOfClean(kept);
    var r := kept + IdentityTags(userName, userId, project);
    assert r[..|r| - 3] == kept;
    r
  }

  /** The intended rewrite leaves exactly one user tag, the new one, at position |kept|. */
  lemma AddInstanceTagsSingleUser(tags: seq<Tag>, project: string, userName: string,
                                  userId: string)
    ensures var r := AddInstanceTags(tags, project, userName, userId);
            forall i :: 0 <= i < |r| && IsUserTag(r[i]) ==> i == |r| - 3 && r[i].value == userName
  {
    var r := AddInstanceTags(tags, project, userName, userId);
    var kept, added := r[..|r| - 3], r[|r| - 3..];
    assert forall i :: 0 <= i < |r| - 3 ==> r[i] == kept[i];
    assert forall i :: |r| - 3 <= i < |r| ==> r[i] == added[i - (|r| - 3)];
  }

  /** As written and as intended agree whenever no two user tags are adjacent. */
  lemma AsWrittenAgreesWhenSeparated(tags: seq<Tag>, project: string, userName: string,
                                     userId: string)
    requires NoAdjacentUserTags(tags)
    ensures AddInstanceTagsAsWritten(tags, project, userName, userId)
            == AddInstanceTags(tags, project, userName, userId)
  {
    AddInstanceTagsAsWrittenShape(tags, project, userName, userId);
  }
}
