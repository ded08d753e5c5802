/** The offset-paged rotation of exposed keys, with the mirrored update of a second table. */
module ExposedKeyRotation {
  import opened Lists

  const LIVE := "gw_live_"

  /** A row of `users`; a missing key reads as the empty string. */
  datatype User = User(id: int, apiKey: string) {
    predicate Live() {
      LIVE <= apiKey
    }
  }

  /** A row of `api_keys_new`. */
  datatype KeyRow = KeyRow(userId: int, apiKey: string)

  /** The users table is read in id order; ids are unique. */
  predicate Ordered(users: seq<User>) {
    forall i, j :: 0 <= i < j < |users| ==> users[i].id < users[j].id
  }

  /** The outside world: the key generator, and which writes fail for which user. */
  datatype World = World(generate: nat -> string, userWriteFails: int -> bool, mirrorWriteFails: int -> bool)

  datatype Db = Db(users: seq<User>, keys: seq<KeyRow>, issued: nat, rotated: nat, skipped: nat, failed: nat)

  function Start(users: seq<User>, keys: seq<KeyRow>): Db {
    Db(users, keys, 0, 0, 0, 0)
  }

  /** `users.update({"api_key": newKey}).eq("id", id)` */
  function UpdateUsers(users: seq<User>, id: int, newKey: string): seq<User> {
    seq(|users|, i requires 0 <= i < |users| => if users[i].id == id then users[i].(apiKey := newKey) else users[i])
  }

  /** `api_keys_new.update({"api_key": newKey}).eq("user_id", id).eq("api_key", oldKey)` */
  function UpdateKeys(keys: seq<KeyRow>, id: int, oldKey: string, newKey: string): seq<KeyRow> {
    seq(|keys|, i requires 0 <= i < |keys| =>
      if keys[i].userId == id && keys[i].apiKey == oldKey then keys[i].(apiKey := newKey) else keys[i])
  }

  /** One iteration of the inner loop. */
  function Process(db: Db, u: User, w: World, dryRun: bool): Db {
    if !u.Live() then db.(skipped := db.skipped + 1)
    else
      var newKey := w.generate(db.issued);
      var issued := db.(issued := db.issued + 1);
      if dryRun then issued
      else if w.userWriteFails(u.id) then issued.(failed := db.failed + 1)
      else
        issued.(users := UpdateUsers(db.users, u.id, newKey),
                keys := if w.mirrorWriteFails(u.id) then db.keys else UpdateKeys(db.keys, u.id, u.apiKey, newKey),
                rotated := db.rotated + 1)
  }

  /** Every one of the first `k` users processed once, in id order. */
  function After(users: seq<User>, keys: seq<KeyRow>, k: nat, w: World, dryRun: bool): Db
    requires k <= |users|
  {
    if k == 0 then Start(users, keys) else Process(After(users, keys, k - 1, w, dryRun), users[k - 1], w, dryRun)
  }

  /** Rows not yet processed still read as they did at the start. */
  lemma {:induction false} LaterUsersUntouched(users: seq<User>, keys: seq<KeyRow>, k: nat, w: World, dryRun: bool)
    requires Ordered(users) && k <= |users|
    ensures var db := After(users, keys, k, w, dryRun);
      |db.users| == |users| && (forall i :: 0 <= i < |users| ==> db.users[i].id == users[i].id)
      && forall i :: k <= i < |users| ==> db.users[i] == users[i]
  {
    if k > 0 {
      LaterUsersUntouched(users, keys, k - 1, w, dryRun);
    }
  }

  lemma AfterNext(users: seq<User>, keys: seq<KeyRow>, k: nat, u: User, w: World, dryRun: bool)
    requires k < |users| && u == users[k]
    ensures After(users, keys, k + 1, w, dryRun) == Process(After(users, keys, k, w, dryRun), u, w, dryRun)
  {
  }

  lemma PageUntouched(users: seq<User>, keys: seq<KeyRow>, k: nat, m: nat, w: World, dryRun: bool)
    requires Ordered(users) && k <= m <= |users|
    ensures var db := After(users, keys, k, w, dryRun);
      |db.users| == |users| && db.users[k..m] == users[k..m]
  {
    LaterUsersUntouched(users, keys, k, w, dryRun);
  }

  // ----- What the whole run does -----

  /** The number of keys issued before user `k`. */
  function LiveBefore(users: seq<User>, k: nat): nat
    requires k <= |users|
  {
    if k == 0 then 0 else LiveBefore(users, k - 1) + if "gw_live_" <= users[k - 1].apiKey then 1 else 0
  }

  /** Every user is counted exactly once, and a dry run writes nothing. */
  lemma {:induction false} EveryUserOnce(users: seq<User>, keys: seq<KeyRow>, k: nat, w: World, dryRun: bool)
    requires k <= |users|
    ensures var db := After(users, keys, k, w, dryRun);
      && db.issued == LiveBefore(users, k)
      && db.skipped == k - LiveBefore(users, k)
      && (!dryRun ==> db.rotated + db.skipped + db.failed == k)
      && (dryRun ==> db.users == users && db.keys == keys && db.rotated == 0 && db.failed == 0)
      && ((forall id :: !w.userWriteFails(id)) ==> db.failed == 0)
  {
    if k > 0 {
      EveryUserOnce(users, keys, k - 1, w, dryRun);
    }
  }

  /** User `i` gets a new key. */
  predicate Rotates(u: User, w: World) {
    u.Live() && !w.userWriteFails(u.id)
  }

  /** What becomes of user `i` when the first `k` are processed. */
  function UserAfter(users: seq<User>, k: nat, w: World, i: nat): User
    requires i < |users|
  {
    if i < k && Rotates(users[i], w) then users[i].(apiKey := w.generate(LiveBefore(users, i))) else users[i]
  }

  /** Processing one user changes only its own row, and that only when it rotates. */
  lemma ProcessUsers(db: Db, u: User, w: World, i: nat)
    requires i < |db.users|
    ensures var db' := Process(db, u, w, false);
      |db'.users| == |db.users|
      && db'.users[i] == if Rotates(u, w) && db.users[i].id == u.id then db.users[i].(apiKey := w.generate(db.issued))
                         else db.users[i]
  {
  }

  lemma {:induction false} UserAt(users: seq<User>, keys: seq<KeyRow>, k: nat, w: World, i: nat)
    requires Ordered(users) && k <= |users| && i < |users|
    ensures var db := After(users, keys, k, w, false);
      |db.users| == |users| && db.users[i] == UserAfter(users, k, w, i)
  {
    if k > 0 {
      UserAt(users, keys, k - 1, w, i);
      EveryUserOnce(users, keys, k - 1, w, false);
      ProcessUsers(After(users, keys, k - 1, w, false), users[k - 1], w, i);
      assert users[i].id == users[k - 1].id <==> i == k - 1;
    }
  }

  /** The keys of the users after the first `k` were processed. */
  lemma UsersAfter(users: seq<User>, keys: seq<KeyRow>, k: nat, w: World)
    requires Ordered(users) && k <= |users|
    ensures var db := After(users, keys, k, w, false);
      |db.users| == |users|
      && forall i :: 0 <= i < |users| ==>
        db.users[i] == if i < k && Rotates(users[i], w) then users[i].(apiKey := w.generate(LiveBefore(users, i)))
                       else users[i]
  {
    LaterUsersUntouched(users, keys, k, w, false);
    forall i | 0 <= i < |users| ensures After(users, keys, k, w, false).users[i] == UserAfter(users, k, w, i) {
      UserAt(users, keys, k, w, i);
    }
  }

  /** User `i` is the owner of the mirrored row `r`, both are rotated. */
  predicate Follows(r: KeyRow, u: User, w: World) {
    r.userId == u.id && r.apiKey == u.apiKey && Rotates(u, w) && !w.mirrorWriteFails(u.id)
  }

  /** The rows of the second table after the first `k` users were processed: a row changes exactly when it holds the
      key of its owner and both writes for the owner succeed, and then it holds the owner's new key. */
  lemma {:induction false} KeysAfter(users: seq<User>, keys: seq<KeyRow>, k: nat, w: World)
    requires Ordered(users) && k <= |users|
    ensures var db := After(users, keys, k, w, false);
      |db.keys| == |keys|
      && forall j :: 0 <= j < |keys| ==>
        && (forall i :: 0 <= i < k && Follows(keys[j], users[i], w) ==>
              db.keys[j] == keys[j].(apiKey := w.generate(LiveBefore(users, i))))
        && ((forall i :: 0 <= i < k ==> !Follows(keys[j], users[i], w)) ==> db.keys[j] == keys[j])
  {
    if k > 0 {
      KeysAfter(users, keys, k - 1, w);
      EveryUserOnce(users, keys, k - 1, w, false);
    }
  }

  /** Generated keys are live, pairwise different, and held by nobody yet. */
  ghost predicate FreshKeys(users: seq<User>, keys: seq<KeyRow>, w: World) {
    && (forall n :: LIVE <= w.generate(n))
    && (forall m, n :: m != n ==> w.generate(m) != w.generate(n))
    && (forall n, i :: 0 <= i < |users| ==> w.generate(n) != users[i].apiKey)
    && (forall n, j :: 0 <= j < |keys| ==> w.generate(n) != keys[j].apiKey)
  }

  /** A live key is still in use after the run exactly by the users who had it and whose write failed. */
  lemma LiveKeysReplaced(users: seq<User>, keys: seq<KeyRow>, w: World, i: nat, oldKey: string)
    requires Ordered(users) && FreshKeys(users, keys, w) && i < |users|
    requires LIVE <= oldKey && exists j :: 0 <= j < |users| && users[j].apiKey == oldKey
    ensures var end := After(users, keys, |users|, w, false).users;
      |end| == |users| && end[i].id == users[i].id
      && (end[i].apiKey == oldKey <==> users[i].apiKey == oldKey && w.userWriteFails(users[i].id))
  {
    LaterUsersUntouched(users, keys, |users|, w, false);
    UsersAfter(users, keys, |users|, w);
  }

  lemma {:induction false} LiveBeforeMonotone(users: seq<User>, i: nat, k: nat)
    requires i < k <= |users|
    ensures LiveBefore(users, i) + (if "gw_live_" <= users[i].apiKey then 1 else 0) <= LiveBefore(users, k)
  {
    if i < k - 1 {
      LiveBeforeMonotone(users, i, k - 1);
    }
  }

  /** No two rotated users share a key, even if their old keys were equal. */
  lemma RotatedKeysDistinct(users: seq<User>, keys: seq<KeyRow>, w: World, i: nat, k: nat)
    requires Ordered(users) && FreshKeys(users, keys, w) && i < k < |users|
    requires Rotates(users[i], w) && Rotates(users[k], w)
    ensures var end := After(users, keys, |users|, w, false).users;
      |end| == |users| && end[i].apiKey != end[k].apiKey
  {
    UsersAfter(users, keys, |users|, w);
    LiveBeforeMonotone(users, i, k);
  }

  /** The second table holds the key of user `u`. */
  predicate Mirrored(keys: seq<KeyRow>, u: User) {
    exists j :: 0 <= j < |keys| && keys[j].userId == u.id && keys[j].apiKey == u.apiKey
  }

  /** The row `j` holds the key of user `i` after the run, in terms of what it held before. */
  lemma MirrorRow(users: seq<User>, keys: seq<KeyRow>, w: World, i: nat, j: nat)
    requires Ordered(users) && FreshKeys(users, keys, w) && i < |users| && j < |keys|
    ensures var end := After(users, keys, |users|, w, false);
      && |end.users| == |users| && |end.keys| == |keys|
      && end.keys[j].userId == keys[j].userId && end.users[i].id == users[i].id
      && (keys[j].userId == users[i].id ==>
            (end.keys[j].apiKey == end.users[i].apiKey
             <==> keys[j].apiKey == users[i].apiKey && !(Rotates(users[i], w) && w.mirrorWriteFails(users[i].id))))
  {
    UsersAfter(users, keys, |users|, w);
    KeysAfter(users, keys, |users|, w);
    var end := After(users, keys, |users|, w, false);
    if k :| 0 <= k < |users| && Follows(keys[j], users[k], w) {
      assert end.keys[j] == keys[j].(apiKey := w.generate(LiveBefore(users, k)));
      assert users[i].id == users[k].id ==> i == k;
    } else {
      assert end.keys[j] == keys[j];
    }
  }

  /** After the run a user is mirrored exactly when it was before and its second write did not fail after the first. */
  lemma MirrorKept(users: seq<User>, keys: seq<KeyRow>, w: World, i: nat)
    requires Ordered(users) && FreshKeys(users, keys, w) && i < |users|
    ensures var end := After(users, keys, |users|, w, false);
      |end.users| == |users|
      && (Mirrored(end.keys, end.users[i])
          <==> Mirrored(keys, users[i]) && !(Rotates(users[i], w) && w.mirrorWriteFails(users[i].id)))
  {
    UsersAfter(users, keys, |users|, w);
    KeysAfter(users, keys, |users|, w);
    var end := After(users, keys, |users|, w, false);
    if j :| 0 <= j < |keys| && keys[j].userId == users[i].id && keys[j].apiKey == users[i].apiKey {
      MirrorRow(users, keys, w, i, j);
      assert end.keys[j].userId == end.users[i].id;
    }
    if j :| 0 <= j < |end.keys| && end.keys[j].userId == end.users[i].id && end.keys[j].apiKey == end.users[i].apiKey {
      MirrorRow(users, keys, w, i, j);
      assert keys[j].userId == users[i].id;
    }
  }

  // ----- The run in terms of the columns alone -----

  /** Exactly the users whose key begins with `gw_live_` and whose write succeeds get the key generated for them. */
  predicate UsersRotated(users: seq<User>, users': seq<User>, w: World) {
    && |users'| == |users|
    && forall i :: 0 <= i < |users| ==>
         users'[i] == if "gw_live_" <= users[i].apiKey && !w.userWriteFails(users[i].id)
                      then User(users[i].id, w.generate(LiveBefore(users, i)))
                      else users[i]
  }

  /** A row of the second table that held the old key of such a user holds the new one if its write succeeds too. */
  predicate KeyFollows(users: seq<User>, users': seq<User>, r: KeyRow, r': KeyRow, w: World)
    requires |users'| == |users|
  {
    && r'.userId == r.userId
    && (forall i :: 0 <= i < |users| && Concerns(users[i], r, w) ==> r'.apiKey == users'[i].apiKey)
    && ((forall i :: 0 <= i < |users| ==> !Concerns(users[i], r, w)) ==> r' == r)
  }

  predicate Concerns(u: User, r: KeyRow, w: World) {
    && r.userId == u.id && r.apiKey == u.apiKey
    && "gw_live_" <= u.apiKey && !w.userWriteFails(u.id) && !w.mirrorWriteFails(u.id)
  }

  predicate KeysFollow(users: seq<User>, keys: seq<KeyRow>, users': seq<User>, keys': seq<KeyRow>, w: World) {
    && |users'| == |users| && |keys'| == |keys|
    && forall j :: 0 <= j < |keys| ==> KeyFollows(users, users', keys[j], keys'[j], w)
  }

  lemma RotatesIff(u: User, r: KeyRow, w: World)
    ensures Rotates(u, w) <==> "gw_live_" <= u.apiKey && !w.userWriteFails(u.id)
    ensures Concerns(u, r, w) <==> Follows(r, u, w)
  {
  }

  lemma RunRotatesKey(users: seq<User>, keys: seq<KeyRow>, w: World, j: nat)
    requires Ordered(users) && j < |keys|
    requires var end := After(users, keys, |users|, w, false); UsersRotated(users, end.users, w)
    ensures var end := After(users, keys, |users|, w, false);
      |end.keys| == |keys| && KeyFollows(users, end.users, keys[j], end.keys[j], w)
  {
    KeysAfter(users, keys, |users|, w);
    forall i | 0 <= i < |users| ensures Concerns(users[i], keys[j], w) <==> Follows(keys[j], users[i], w) {
      RotatesIff(users[i], keys[j], w);
    }
  }

  lemma RunRotates(users: seq<User>, keys: seq<KeyRow>, w: World)
    requires Ordered(users)
    ensures var end := After(users, keys, |users|, w, false);
      UsersRotated(users, end.users, w) && KeysFollow(users, keys, end.users, end.keys, w)
  {
    UsersAfter(users, keys, |users|, w);
    KeysAfter(users, keys, |users|, w);
    var end := After(users, keys, |users|, w, false);
    forall i | 0 <= i < |users|
      ensures Rotates(users[i], w) <==> "gw_live_" <= users[i].apiKey && !w.userWriteFails(users[i].id)
    {
      RotatesIff(users[i], KeyRow(0, ""), w);
    }
    forall j | 0 <= j < |keys| ensures KeyFollows(users, end.users, keys[j], end.keys[j], w) {
      RunRotatesKey(users, keys, w, j);
    }
  }

  /** A dry run writes nothing; any other rotates the users and lets the second table follow. */
  predicate Outcome(users: seq<User>, keys: seq<KeyRow>, end: Db, w: World, dryRun: bool) {
    if dryRun then end.users == users && end.keys == keys && end.rotated == 0
    else UsersRotated(users, end.users, w) && KeysFollow(users, keys, end.users, end.keys, w)
  }

  lemma RunOutcome(users: seq<User>, keys: seq<KeyRow>, w: World, dryRun: bool)
    requires Ordered(users)
    ensures Outcome(users, keys, After(users, keys, |users|, w, dryRun), w, dryRun)
  {
    if dryRun {
      EveryUserOnce(users, keys, |users|, w, dryRun);
    } else {
      RunRotates(users, keys, w);
    }
  }

  class Rotation {
    var users: seq<User>
    var keys: seq<KeyRow>
    var issued: nat
    var rotated: nat
    var skipped: nat
    var failed: nat

    constructor (users: seq<User>, keys: seq<KeyRow>)
      ensures State() == Start(users, keys)
    {
      this.users, this.keys := users, keys;
      issued, rotated, skipped, failed := 0, 0, 0, 0;
    }

    function State(): Db
      reads this
    {
      Db(users, keys, issued, rotated, skipped, failed)
    }

    /** The body of the inner loop of `main`. */
    method ProcessUser(u: User, w: World, dryRun: bool)
      modifies this
      ensures State() == Process(old(State()), u, w, dryRun)
    {
      if !u.Live() {
        skipped := skipped + 1;
        return;
      }
      var newKey := w.generate(issued);
      issued := issued + 1;
      if !dryRun {
        if w.userWriteFails(u.id) {
          failed := failed + 1;
        } else {
          users := UpdateUsers(users, u.id, newKey);
          if !w.mirrorWriteFails(u.id) {
            keys := UpdateKeys(keys, u.id, u.apiKey, newKey);
          }
          rotated := rotated + 1;
        }
      }
    }

    /** The inner loop of `main`, on rows that follow the first `from` users. */
    method ProcessPage(
      rows: seq<User>, w: World, dryRun: bool, ghost start: seq<User>, ghost startKeys: seq<KeyRow>, ghost from: nat)
      requires from + |rows| <= |start| && rows == start[from..from + |rows|]
      requires State() == After(start, startKeys, from, w, dryRun)
      modifies this
      ensures State() == After(start, startKeys, from + |rows|, w, dryRun)
    {
      ghost var k := from;
      for j := 0 to |rows|
        invariant k == from + j && State() == After(start, startKeys, k, w, dryRun)
      {
        assert rows[j] == start[k];
        AfterNext(start, startKeys, k, rows[j], w, dryRun);
        ProcessUser(rows[j], w, dryRun);
        k := k + 1;
      }
    }

    /** `main`: fetch the page from `page * page_size` on, process its rows, go on until a page is short. */
    method Run(pageSize: nat, w: World, dryRun: bool)
      requires pageSize > 0 && Ordered(users) && State() == Start(users, keys)
      modifies this
      ensures State() == After(old(users), old(keys), |old(users)|, w, dryRun)
      ensures Outcome(old(users), old(keys), State(), w, dryRun)
    {
      var from := 0;
      ghost var start, startKeys := users, keys;
      while true
        invariant from <= |start|
        invariant State() == After(start, startKeys, from, w, dryRun)
        decreases |start| - from
      {
        var end := Min(from + pageSize, |users|);
        PageUntouched(start, startKeys, from, Min(from + pageSize, |start|), w, dryRun);
        var rows := users[from..end];
        if rows == [] {
          break;
        }
        ProcessPage(rows, w, dryRun, start, startKeys, from);
        from := from + |rows|;
        if |rows| < pageSize {
          break;
        }
      }
      assert from == |start|;
      RunOutcome(start, startKeys, w, dryRun);
    }
  }
}
