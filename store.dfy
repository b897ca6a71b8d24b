/**
 * The database queries the route handlers issue, over in-memory
 * collections kept in insertion order: `User.findOne({ username })`,
 * `Content.find({ userId })` and `Content.deleteOne({ _id, userId })`.
 * The order is the model's choice: MongoDB promises none for an unsorted
 * query, so only which records a query yields or removes is the database's.
 */
module Store {
  import opened Wrappers
  import opened Schema

  /** `User.findOne({ username })`: the first stored user with that name. */
  function FindUser(users: seq<User>, username: string): (r: Option<User>)
    ensures r.Some? ==> r.value in users && r.value.username == username
    ensures r.None? <==> forall i :: 0 <= i < |users| ==> users[i].username != username
  {
    if users == [] then None
    else if users[0].username == username then Some(users[0])
    else FindUser(users[1..], username)
  }

  /** With unique names, a user just appended under a new name is the one found by that name. */
  lemma {:induction false} FindAppended(users: seq<User>, u: User)
    requires FindUser(users, u.username).None?
    ensures FindUser(users + [u], u.username) == Some(u)
  {
    if users != [] {
      assert (users + [u])[1..] == users[1..] + [u];
      FindAppended(users[1..], u);
    } else {
      assert users + [u] == [u];
    }
  }

  /** `Content.find({ userId: owner })`: the records of one owner, in the model's insertion order. */
  function OwnedBy(contents: seq<Content>, owner: ObjectId): (r: seq<Content>)
    ensures forall c :: c in r <==> c in contents && c.userId == owner
    ensures |r| <= |contents|
  {
    if contents == [] then []
    else if contents[0].userId == owner then [contents[0]] + OwnedBy(contents[1..], owner)
    else OwnedBy(contents[1..], owner)
  }

  lemma {:induction false} OwnedByConcat(a: seq<Content>, b: seq<Content>, owner: ObjectId)
    ensures OwnedBy(a + b, owner) == OwnedBy(a, owner) + OwnedBy(b, owner)
  {
    if a == [] {
      assert a + b == b;
    } else {
      assert (a + b)[0] == a[0];
      assert (a + b)[1..] == a[1..] + b;
      OwnedByConcat(a[1..], b, owner);
    }
  }

  /** A record appended by its owner is listed last for that owner and for nobody else. */
  lemma {:induction false} OwnedByAppend(contents: seq<Content>, c: Content, owner: ObjectId)
    ensures OwnedBy(contents + [c], owner) ==
      OwnedBy(contents, owner) + (if c.userId == owner then [c] else [])
  {
    OwnedByConcat(contents, [c], owner);
    assert OwnedBy([c], owner) == if c.userId == owner then [c] else [];
  }

  /** The filter `{ _id: id, userId: owner }`. */
  predicate Matches(c: Content, id: ObjectId, owner: ObjectId)
  {
    c.id == id && c.userId == owner
  }

  /** Index of the first record matching the filter, or the length when none does. */
  function FirstMatch(contents: seq<Content>, id: ObjectId, owner: ObjectId): (k: nat)
    ensures k <= |contents|
    ensures k < |contents| ==> Matches(contents[k], id, owner)
    ensures forall j :: 0 <= j < k ==> !Matches(contents[j], id, owner)
  {
    if contents == [] then 0
    else if Matches(contents[0], id, owner) then 0
    else 1 + FirstMatch(contents[1..], id, owner)
  }

  /**
   * `Content.deleteOne({ _id: id, userId: owner })`: drops the first record
   * matching both.  Nothing is added, and the store either stays as it was or
   * loses exactly one record.
   */
  function DeleteOne(contents: seq<Content>, id: ObjectId, owner: ObjectId): (r: seq<Content>)
    ensures r == contents || |r| == |contents| - 1
    ensures forall c :: c in r ==> c in contents
  {
    if contents == [] then []
    else if Matches(contents[0], id, owner) then contents[1..]
    else [contents[0]] + DeleteOne(contents[1..], id, owner)
  }

  /** Records before any match are kept as they are, ahead of what `deleteOne` does to the rest. */
  lemma {:induction false} DeleteOneSkipsPrefix(contents: seq<Content>, id: ObjectId, owner: ObjectId, k: nat)
    requires k <= |contents|
    requires forall j :: 0 <= j < k ==> !Matches(contents[j], id, owner)
    ensures DeleteOne(contents, id, owner) == contents[..k] + DeleteOne(contents[k..], id, owner)
    decreases k
  {
    if k > 0 {
      var tail := contents[1..];
      assert !Matches(contents[0], id, owner);
      forall j | 0 <= j < k - 1
        ensures !Matches(tail[j], id, owner)
      {
        assert tail[j] == contents[j + 1];
      }
      DeleteOneSkipsPrefix(tail, id, owner, k - 1);
      assert tail[k - 1..] == contents[k..];
      assert [contents[0]] + tail[..k - 1] == contents[..k];
    }
  }

  /** `deleteOne` removes exactly the first matching record, and nothing when none matches. */
  lemma {:induction false} DeleteOneRemovesFirstMatch(contents: seq<Content>, id: ObjectId, owner: ObjectId)
    ensures var k := FirstMatch(contents, id, owner);
      DeleteOne(contents, id, owner) == if k == |contents| then contents else contents[..k] + contents[k + 1..]
  {
    var k := FirstMatch(contents, id, owner);
    DeleteOneSkipsPrefix(contents, id, owner, k);
    if k == |contents| {
      assert contents[..k] == contents;
      assert contents[k..] == [];
    } else {
      assert contents[k..][1..] == contents[k + 1..];
    }
  }

  /** Removing one record of another owner keeps an owner's records, in order. */
  lemma {:induction false} RemoveAtKeepsOwners(contents: seq<Content>, k: nat, other: ObjectId)
    requires k < |contents| && contents[k].userId != other
    ensures OwnedBy(contents[..k] + contents[k + 1..], other) == OwnedBy(contents, other)
  {
    var a, x, b := contents[..k], [contents[k]], contents[k + 1..];
    assert contents == (a + x) + b;
    OwnedByConcat(a + x, b, other);
    OwnedByConcat(a, x, other);
    OwnedByConcat(a, b, other);
    assert OwnedBy(x, other) == [];
    assert OwnedBy(a + x, other) == OwnedBy(a, other);
  }

  /** Deleting removes one record when some record matches the filter, and none otherwise. */
  lemma {:induction false} DeleteOneRemovesAtMostOne(contents: seq<Content>, id: ObjectId, owner: ObjectId)
    ensures var r := DeleteOne(contents, id, owner);
      (|r| == |contents| <==> forall i :: 0 <= i < |contents| ==> !Matches(contents[i], id, owner)) &&
      (|r| == |contents| || |r| == |contents| - 1)
  {
    DeleteOneRemovesFirstMatch(contents, id, owner);
  }

  /** Deleting for one owner leaves every other owner's records as they were. */
  lemma {:induction false} DeleteOneKeepsOthers(contents: seq<Content>, id: ObjectId, owner: ObjectId, other: ObjectId)
    requires other != owner
    ensures OwnedBy(DeleteOne(contents, id, owner), other) == OwnedBy(contents, other)
  {
    DeleteOneRemovesFirstMatch(contents, id, owner);
    var k := FirstMatch(contents, id, owner);
    if k < |contents| {
      RemoveAtKeepsOwners(contents, k, other);
    }
  }

  /** Position `i` of a sequence with position `k` removed holds what the original held at `i`, or at `i + 1` from `k` on. */
  lemma RemoveAtIndex(contents: seq<Content>, k: nat)
    requires k < |contents|
    ensures var r := contents[..k] + contents[k + 1..];
      |r| == |contents| - 1 &&
      forall i :: 0 <= i < |r| ==> r[i] == contents[if i < k then i else i + 1]
  {
  }

  /** With distinct ids, nothing matching the filter is left after the delete, and ids stay distinct. */
  lemma {:induction false} DeleteOneLeavesNoMatch(contents: seq<Content>, id: ObjectId, owner: ObjectId)
    requires ContentIdsDistinct(contents)
    ensures var r := DeleteOne(contents, id, owner);
      ContentIdsDistinct(r) && (forall c :: c in r ==> c in contents) &&
      forall i :: 0 <= i < |r| ==> !Matches(r[i], id, owner)
  {
    DeleteOneRemovesFirstMatch(contents, id, owner);
    var k := FirstMatch(contents, id, owner);
    if k < |contents| {
      var r := contents[..k] + contents[k + 1..];
      RemoveAtIndex(contents, k);
      forall i, j | 0 <= i < j < |r|
        ensures r[i].id != r[j].id
      {
        var i', j' := if i < k then i else i + 1, if j < k then j else j + 1;
        assert r[i] == contents[i'] && r[j] == contents[j'] && i' < j';
      }
      forall i | 0 <= i < |r|
        ensures !Matches(r[i], id, owner)
      {
        var i' := if i < k then i else i + 1;
        assert r[i] == contents[i'] && i' != k;
        if i' < k {
          assert contents[i'].id != contents[k].id;
        } else {
          assert contents[k].id != contents[i'].id;
        }
      }
      forall c | c in r
        ensures c in contents
      {
        var i :| 0 <= i < |r| && r[i] == c;
        assert r[i] == contents[if i < k then i else i + 1];
      }
    }
  }
}
