/** The API-key table: validation by a linear scan, creation, rotation and bulk rotation. */
module ApiKeys {
  import opened Outcomes

  datatype KeyRow = KeyRow(
    id: int, userId: int, name: string, stored: string, hash: string, active: bool, expiration: Option<real>,
    maxRequests: Option<int>, used: int, environment: string, allowlist: seq<string>, referrers: seq<string>,
    lastUsed: real)

  /** Encryption, hashing, key generation and the two allowlist checks. The numbers stand for drawn randomness. */
  datatype Crypto = Crypto(
    encrypt: (string, nat) -> string, decrypt: string -> Option<string>, hash: string -> string,
    generate: (nat, string) -> string,
    ipAllowed: (string, seq<string>) -> bool, domainAllowed: (string, seq<string>) -> bool)
  {
    /** Decryption inverts encryption, and no key is generated twice. */
    ghost predicate Sound() {
      && (forall key, n :: decrypt(encrypt(key, n)) == Some(key))
      && (forall m, n, e, e' :: m != n ==> generate(m, e) != generate(n, e'))
    }
  }

  /** The shape of an unencrypted key. */
  predicate IsPlainKey(s: string) {
    "gw_live_" <= s || "gw_test_" <= s || "gw_staging_" <= s || "gw_dev_" <= s
  }

  /** The key a row stands for: decrypted, or as it is when it is an unencrypted key. */
  function KeyOf(c: Crypto, r: KeyRow): Option<string> {
    match c.decrypt(r.stored)
    case Some(key) => Some(key)
    case None => if IsPlainKey(r.stored) then Some(r.stored) else None
  }

  /** The row is stored encrypted under `key`, or holds it as it is with one of the four prefixes. */
  predicate StandsFor(c: Crypto, r: KeyRow, key: string) {
    || c.decrypt(r.stored) == Some(key)
    || (c.decrypt(r.stored) == None && r.stored == key
        && ("gw_live_" <= key || "gw_test_" <= key || "gw_staging_" <= key || "gw_dev_" <= key))
  }

  lemma KeyOfMeaning(c: Crypto, r: KeyRow, key: string)
    ensures KeyOf(c, r) == Some(key) <==> StandsFor(c, r, key)
  {
  }

  // ----- Validation -----

  /** An empty client address or referrer means that none was given. */
  datatype Request = Request(key: string, clientIp: string, referer: string, now: real)

  datatype Violation = InvalidKey | InactiveKey | ExpiredKey | LimitExceeded | IpNotAllowed | DomainNotAllowed

  datatype Info = Info(
    key: string, keyId: int, userId: int, name: string, active: bool, expiration: Option<real>,
    maxRequests: Option<int>, used: int, environment: string, allowlist: seq<string>, referrers: seq<string>)

  /** What a request gets, with the violation that is logged when it is rejected. */
  datatype Verdict = Accepted(info: Info) | Rejected(logged: Option<Violation>)

  function InfoOf(r: KeyRow, key: string): Info {
    Info(key, r.id, r.userId, r.name, r.active, r.expiration, r.maxRequests, r.used, r.environment, r.allowlist,
         r.referrers)
  }

  /** The checks on the matching row, in order; a request limit of zero is no limit. */
  function Check(c: Crypto, r: KeyRow, req: Request): Verdict {
    if !r.active then Rejected(Some(InactiveKey))
    else if r.expiration.Some? && r.expiration.value < req.now then Rejected(Some(ExpiredKey))
    else if r.maxRequests.Some? && r.maxRequests.value != 0 && r.used >= r.maxRequests.value then
      Rejected(Some(LimitExceeded))
    else if req.clientIp != "" && r.allowlist != [] && !c.ipAllowed(req.clientIp, r.allowlist) then
      Rejected(Some(IpNotAllowed))
    else if req.referer != "" && r.referrers != [] && !c.domainAllowed(req.referer, r.referrers) then
      Rejected(Some(DomainNotAllowed))
    else Accepted(InfoOf(r, req.key))
  }

  /** The position of the first row with the key, or the number of rows. */
  function FirstWith(c: Crypto, rows: seq<KeyRow>, key: string): (i: nat)
    ensures i <= |rows|
  {
    if rows == [] || KeyOf(c, rows[0]) == Some(key) then 0 else 1 + FirstWith(c, rows[1..], key)
  }

  /** `validate_secure_api_key` */
  function Validate(c: Crypto, rows: seq<KeyRow>, req: Request): Verdict {
    var i := FirstWith(c, rows, req.key);
    if rows == [] then Rejected(None)
    else if i == |rows| then Rejected(Some(InvalidKey))
    else Check(c, rows[i], req)
  }

  lemma {:induction false} FirstWithMeaning(c: Crypto, rows: seq<KeyRow>, key: string)
    ensures var i := FirstWith(c, rows, key);
      && (forall j :: 0 <= j < i ==> KeyOf(c, rows[j]) != Some(key))
      && (i < |rows| ==> KeyOf(c, rows[i]) == Some(key))
  {
    if rows != [] && KeyOf(c, rows[0]) != Some(key) {
      FirstWithMeaning(c, rows[1..], key);
    }
  }

  /** No two rows stand for the same key. */
  predicate DistinctKeys(c: Crypto, rows: seq<KeyRow>) {
    forall i, j :: 0 <= i < j < |rows| && KeyOf(c, rows[i]).Some? ==> KeyOf(c, rows[i]) != KeyOf(c, rows[j])
  }

  predicate HasKey(c: Crypto, rows: seq<KeyRow>, key: string) {
    exists r <- rows :: KeyOf(c, r) == Some(key)
  }

  lemma ValidateAt(c: Crypto, rows: seq<KeyRow>, req: Request, i: nat)
    requires DistinctKeys(c, rows) && i < |rows| && KeyOf(c, rows[i]) == Some(req.key)
    ensures Validate(c, rows, req) == Check(c, rows[i], req)
  {
    FirstWithMeaning(c, rows, req.key);
  }

  lemma ValidateAbsent(c: Crypto, rows: seq<KeyRow>, req: Request)
    requires rows != [] && !HasKey(c, rows, req.key)
    ensures Validate(c, rows, req) == Rejected(Some(InvalidKey))
  {
    FirstWithMeaning(c, rows, req.key);
  }

  /** The rows by the key they stand for. */
  function Index(c: Crypto, rows: seq<KeyRow>): map<string, KeyRow>
    requires DistinctKeys(c, rows)
  {
    map r | r in rows && KeyOf(c, r).Some? :: KeyOf(c, r).value := r
  }

  /** With distinct keys, scanning the rows is looking the key up and checking the row found. */
  lemma ScanIsLookup(c: Crypto, rows: seq<KeyRow>, req: Request)
    requires DistinctKeys(c, rows)
    ensures req.key in Index(c, rows) <==> HasKey(c, rows, req.key)
    ensures Validate(c, rows, req)
         == if rows == [] then Rejected(None)
            else if req.key in Index(c, rows) then Check(c, Index(c, rows)[req.key], req)
            else Rejected(Some(InvalidKey))
  {
    if r :| r in rows && KeyOf(c, r) == Some(req.key) {
      var i :| 0 <= i < |rows| && rows[i] == r;
      ValidateAt(c, rows, req, i);
      assert Index(c, rows)[req.key] == r;
    } else if rows != [] {
      ValidateAbsent(c, rows, req);
    }
  }

  /** All rows with the key would give the same verdict. */
  predicate Alike(c: Crypto, rows: seq<KeyRow>, req: Request) {
    forall r, s :: r in rows && s in rows && KeyOf(c, r) == KeyOf(c, s) == Some(req.key) ==>
      Check(c, r, req) == Check(c, s, req)
  }

  /** The verdict does not depend on the order of the rows exactly when all rows with the key agree. */
  lemma OrderIndependence(c: Crypto, rows: seq<KeyRow>, req: Request)
    ensures (forall shuffled: seq<KeyRow> :: multiset(shuffled) == multiset(rows) ==>
               Validate(c, shuffled, req) == Validate(c, rows, req))
       <==> Alike(c, rows, req)
  {
    FirstWithMeaning(c, rows, req.key);
    if Alike(c, rows, req) {
      forall shuffled: seq<KeyRow> | multiset(shuffled) == multiset(rows)
        ensures Validate(c, shuffled, req) == Validate(c, rows, req)
      {
        ShuffledVerdict(c, rows, shuffled, req);
      }
    } else {
      var r, s :| r in rows && s in rows && KeyOf(c, r) == KeyOf(c, s) == Some(req.key)
        && Check(c, r, req) != Check(c, s, req);
      var first := ToFront(rows, r);
      var second := ToFront(rows, s);
      assert Validate(c, first, req) == Check(c, r, req) && Validate(c, second, req) == Check(c, s, req);
    }
  }

  lemma ToFront(rows: seq<KeyRow>, r: KeyRow) returns (shuffled: seq<KeyRow>)
    requires r in rows
    ensures multiset(shuffled) == multiset(rows) && shuffled != [] && shuffled[0] == r
  {
    var i :| 0 <= i < |rows| && rows[i] == r;
    shuffled := [r] + (rows[..i] + rows[i + 1..]);
    assert rows == rows[..i] + [r] + rows[i + 1..];
  }

  lemma ShuffledVerdict(c: Crypto, rows: seq<KeyRow>, shuffled: seq<KeyRow>, req: Request)
    requires multiset(shuffled) == multiset(rows)
    requires Alike(c, rows, req)
    ensures Validate(c, shuffled, req) == Validate(c, rows, req)
  {
    FirstWithMeaning(c, rows, req.key);
    FirstWithMeaning(c, shuffled, req.key);
    assert |rows| == |multiset(rows)| && |shuffled| == |multiset(shuffled)|;
    var i, j := FirstWith(c, rows, req.key), FirstWith(c, shuffled, req.key);
    if i < |rows| {
      assert rows[i] in multiset(shuffled);
    }
    if j < |shuffled| {
      assert shuffled[j] in multiset(rows);
    }
  }

  // ----- Rotation -----

  /** `r'` is `r` under a new key, and possibly a new name. */
  predicate Rekeyed(c: Crypto, r: KeyRow, r': KeyRow, key: string) {
    KeyOf(c, r') == Some(key) && r' == r.(stored := r'.stored, hash := r'.hash, name := r'.name)
  }

  /** The verdict of the same row under another key and name. */
  function Renamed(v: Verdict, key: string, name: string): Verdict {
    match v
    case Accepted(info) => Accepted(info.(key := key, name := name))
    case Rejected(_) => v
  }

  /** Some rows are rekeyed, each with a key of its own that nobody had; the others stay. */
  predicate RekeysSome(c: Crypto, rows: seq<KeyRow>, rows': seq<KeyRow>, newKeys: map<nat, string>) {
    && |rows'| == |rows|
    && (forall i <- newKeys :: i < |rows| && Rekeyed(c, rows[i], rows'[i], newKeys[i]) && !HasKey(c, rows, newKeys[i]))
    && (forall i, j :: i in newKeys && j in newKeys && i != j ==> newKeys[i] != newKeys[j])
    && (forall i :: 0 <= i < |rows| && i !in newKeys ==> rows'[i] == rows[i])
  }

  lemma RekeyKeepsDistinct(c: Crypto, rows: seq<KeyRow>, rows': seq<KeyRow>, newKeys: map<nat, string>)
    requires DistinctKeys(c, rows) && RekeysSome(c, rows, rows', newKeys)
    ensures DistinctKeys(c, rows')
  {
    forall i, j | 0 <= i < j < |rows| && KeyOf(c, rows'[i]).Some? ensures KeyOf(c, rows'[i]) != KeyOf(c, rows'[j]) {
      assert rows[i] in rows && rows[j] in rows;
    }
  }

  /** After rotating some rows, the old keys are rejected. */
  lemma RekeyOldKey(c: Crypto, rows: seq<KeyRow>, rows': seq<KeyRow>, newKeys: map<nat, string>, i: nat, req: Request)
    requires DistinctKeys(c, rows) && RekeysSome(c, rows, rows', newKeys) && i in newKeys
    requires KeyOf(c, rows[i]) == Some(req.key)
    ensures Validate(c, rows', req) == Rejected(Some(InvalidKey))
  {
    forall j | 0 <= j < |rows'| ensures KeyOf(c, rows'[j]) != Some(req.key) {
      assert rows[i] in rows && rows[j] in rows;
    }
    ValidateAbsent(c, rows', req);
  }

  lemma CheckRekeyed(c: Crypto, r: KeyRow, r': KeyRow, key: string, req: Request)
    requires Rekeyed(c, r, r', key)
    ensures Check(c, r', req.(key := key)) == Renamed(Check(c, r, req), key, r'.name)
  {
  }

  /** The new keys get the verdict the rows got before. */
  lemma RekeyNewKey(c: Crypto, rows: seq<KeyRow>, rows': seq<KeyRow>, newKeys: map<nat, string>, i: nat, req: Request)
    requires DistinctKeys(c, rows) && RekeysSome(c, rows, rows', newKeys) && i in newKeys
    ensures Validate(c, rows', req.(key := newKeys[i])) == Renamed(Check(c, rows[i], req), newKeys[i], rows'[i].name)
    ensures KeyOf(c, rows[i]) == Some(req.key) ==> Check(c, rows[i], req) == Validate(c, rows, req)
  {
    RekeyKeepsDistinct(c, rows, rows', newKeys);
    assert Rekeyed(c, rows[i], rows'[i], newKeys[i]);
    ValidateAt(c, rows', req.(key := newKeys[i]), i);
    CheckRekeyed(c, rows[i], rows'[i], newKeys[i], req);
    if KeyOf(c, rows[i]) == Some(req.key) {
      ValidateAt(c, rows, req, i);
    }
  }

  /** The verdict for every other key is unchanged. */
  lemma RekeyOthers(c: Crypto, rows: seq<KeyRow>, rows': seq<KeyRow>, newKeys: map<nat, string>, req: Request)
    requires DistinctKeys(c, rows) && RekeysSome(c, rows, rows', newKeys)
    requires forall i <- newKeys :: newKeys[i] != req.key && KeyOf(c, rows[i]) != Some(req.key)
    ensures Validate(c, rows', req) == Validate(c, rows, req)
  {
    RekeyKeepsDistinct(c, rows, rows', newKeys);
    if r :| r in rows && KeyOf(c, r) == Some(req.key) {
      var k :| 0 <= k < |rows| && rows[k] == r;
      ValidateAt(c, rows, req, k);
      ValidateAt(c, rows', req, k);
    } else if rows != [] {
      ValidateAbsent(c, rows, req);
      assert !HasKey(c, rows', req.key);
      ValidateAbsent(c, rows', req);
    }
  }

  // ----- The store -----

  predicate UniqueIds(rows: seq<KeyRow>) {
    forall i, j :: 0 <= i < j < |rows| ==> rows[i].id != rows[j].id
  }

  /** The stored hash of a readable row is the hash of its key. */
  predicate HashesAgree(c: Crypto, rows: seq<KeyRow>) {
    forall r <- rows :: c.decrypt(r.stored).Some? ==> r.hash == c.hash(c.decrypt(r.stored).value)
  }

  /** No key still to be generated is stored. */
  ghost predicate NotYetIssued(c: Crypto, rows: seq<KeyRow>, issued: nat) {
    forall n, e :: n >= issued ==> !HasKey(c, rows, c.generate(n, e))
  }

  function Rotated(c: Crypto, r: KeyRow, n: nat, name: Option<string>): KeyRow {
    var key := c.generate(n, r.environment);
    r.(stored := c.encrypt(key, n), hash := c.hash(key),
       name := if name.Some? && name.value != "" then name.value else r.name)
  }

  function NewRow(
    c: Crypto, n: nat, id: int, userId: int, name: string, environment: string, days: Option<int>,
    maxRequests: Option<int>, allowlist: seq<string>, referrers: seq<string>, now: real): KeyRow
  {
    var key := c.generate(n, environment);
    var expiration := if days.Some? && days.value != 0 then Some(now + (days.value * 86400) as real) else None;
    KeyRow(id, userId, name, c.encrypt(key, n), c.hash(key), true, expiration, maxRequests, 0, environment,
           allowlist, referrers, now)
  }

  predicate NameTaken(rows: seq<KeyRow>, userId: int, name: string) {
    exists r <- rows :: r.userId == userId && r.name == name
  }

  function Touch(rows: seq<KeyRow>, id: int, now: real): seq<KeyRow> {
    seq(|rows|, i requires 0 <= i < |rows| => if rows[i].id == id then rows[i].(lastUsed := now) else rows[i])
  }

  function IndexOf(rows: seq<KeyRow>, id: int, userId: int): (i: nat)
    ensures i <= |rows| && (i < |rows| ==> rows[i].id == id && rows[i].userId == userId)
    ensures i == |rows| ==> forall j :: 0 <= j < |rows| ==> !(rows[j].id == id && rows[j].userId == userId)
  {
    if rows == [] || (rows[0].id == id && rows[0].userId == userId) then 0 else 1 + IndexOf(rows[1..], id, userId)
  }

  class ApiKeyStore {
    const crypto: Crypto
    var rows: seq<KeyRow>
    var issued: nat

    ghost predicate Valid()
      reads this
    {
      && crypto.Sound() && UniqueIds(rows) && DistinctKeys(crypto, rows) && HashesAgree(crypto, rows)
      && NotYetIssued(crypto, rows, issued)
    }

    constructor (crypto: Crypto, rows: seq<KeyRow>)
      requires crypto.Sound() && UniqueIds(rows) && DistinctKeys(crypto, rows) && HashesAgree(crypto, rows)
      requires NotYetIssued(crypto, rows, 0)
      ensures Valid() && this.crypto == crypto && this.rows == rows
    {
      this.crypto, this.rows, this.issued := crypto, rows, 0;
    }

    /** Scan, check, and note the time of use when accepted and the write succeeds. */
    method ValidateSecureApiKey(req: Request, touchFails: bool) returns (verdict: Verdict)
      requires Valid()
      modifies this
      ensures Valid() && issued == old(issued)
      ensures verdict == Validate(crypto, old(rows), req)
      ensures rows == if verdict.Accepted? && !touchFails then Touch(old(rows), verdict.info.keyId, req.now)
                      else old(rows)
      ensures |rows| == |old(rows)|
      ensures forall i :: 0 <= i < |rows| ==>
        if verdict.Accepted? && !touchFails && old(rows)[i].id == verdict.info.keyId
        then rows[i] == old(rows)[i].(lastUsed := req.now)
        else rows[i] == old(rows)[i]
      ensures forall other: Request :: Validate(crypto, rows, other) == Validate(crypto, old(rows), other)
    {
      if rows == [] {
        return Rejected(None);
      }
      for i := 0 to |rows|
        invariant rows == old(rows) && FirstWith(crypto, rows, req.key) == i + FirstWith(crypto, rows[i..], req.key)
      {
        if KeyOf(crypto, rows[i]) == Some(req.key) {
          verdict := Check(crypto, rows[i], req);
          if verdict.Accepted? && !touchFails {
            TouchKeeps(crypto, rows, verdict.info.keyId, req.now, issued);
            rows := Touch(rows, verdict.info.keyId, req.now);
            forall other: Request ensures Validate(crypto, rows, other) == Validate(crypto, old(rows), other) {
              TouchInvisible(crypto, old(rows), verdict.info.keyId, req.now, other);
            }
          }
          return;
        }
      }
      verdict := Rejected(Some(InvalidKey));
    }

    /** `check_key_name_uniqueness`; an excluded id of zero excludes nothing. */
    method CheckKeyNameUniqueness(userId: int, name: string, exclude: Option<int>) returns (unique: bool)
      ensures unique <==> (forall r <- rows :: r.userId == userId && r.name == name ==>
                             exclude.Some? && exclude.value != 0 && r.id == exclude.value)
    {
      unique := true;
      for i := 0 to |rows|
        invariant unique <==> forall j :: 0 <= j < i && rows[j].userId == userId && rows[j].name == name ==>
          exclude.Some? && exclude.value != 0 && rows[j].id == exclude.value
      {
        var r := rows[i];
        if r.userId == userId && r.name == name && !(exclude.Some? && exclude.value != 0 && r.id == exclude.value) {
          unique := false;
        }
      }
    }

    /** Refuse a taken name, else generate a key and insert its row; `newId` is the id the database assigns. */
    method CreateSecureApiKey(
      userId: int, name: string, environment: string, days: Option<int>, maxRequests: Option<int>,
      allowlist: seq<string>, referrers: seq<string>, now: real, newId: int, insertFails: bool)
      returns (key: Try<string>)
      requires Valid() && forall r <- rows :: r.id != newId
      modifies this
      ensures Valid()
      ensures key.Ok? <==> !NameTaken(old(rows), userId, name) && !insertFails
      ensures key.Raise? ==> rows == old(rows)
      ensures key.Ok? ==>
        && key.value == crypto.generate(old(issued), environment) && !HasKey(crypto, old(rows), key.value)
        && rows == old(rows) + [NewRow(crypto, old(issued), newId, userId, name, environment, days, maxRequests,
                                       allowlist, referrers, now)]
      ensures key.Ok? ==>
        var r := rows[|rows| - 1];
        && r.id == newId && r.userId == userId && r.name == name && r.environment == environment
        && crypto.decrypt(r.stored) == Some(key.value) && r.hash == crypto.hash(key.value)
        && r.active && r.used == 0 && r.maxRequests == maxRequests && r.lastUsed == now
        && r.allowlist == allowlist && r.referrers == referrers
        && (days == None || days == Some(0) ==> r.expiration == None)
        && (days.Some? && days.value != 0 ==> r.expiration == Some(now + (days.value * 86400) as real))
    {
      var unique := CheckKeyNameUniqueness(userId, name, None);
      if !unique {
        return Raise;
      }
      var apiKey := crypto.generate(issued, environment);
      var row := NewRow(crypto, issued, newId, userId, name, environment, days, maxRequests, allowlist, referrers, now);
      issued := issued + 1;
      if insertFails {
        return Raise;
      }
      InsertKeeps(crypto, rows, row, apiKey, environment, issued);
      rows := rows + [row];
      return Ok(apiKey);
    }

    /** Replace the key of one row; a missing row, another owner or a failed write raises. */
    method RotateApiKey(id: int, userId: int, newName: Option<string>, updateFails: bool) returns (key: Try<string>)
      requires Valid()
      modifies this
      ensures Valid()
      ensures var i := IndexOf(old(rows), id, userId);
        && (key.Ok? <==> i < |old(rows)| && !updateFails)
        && issued == (if i < |old(rows)| then old(issued) + 1 else old(issued))
        && (key.Raise? ==> rows == old(rows))
        && (key.Ok? ==>
              && key.value == crypto.generate(old(issued), old(rows)[i].environment)
              && rows == old(rows)[i := Rotated(crypto, old(rows)[i], old(issued), newName)])
      ensures key.Raise? ==> updateFails || forall r <- old(rows) :: r.id != id || r.userId != userId
      ensures |rows| == |old(rows)|
      ensures forall i :: 0 <= i < |rows| && key.Ok? && rows[i].id == id ==>
        && crypto.decrypt(rows[i].stored) == Some(key.value) && rows[i].userId == userId
        && rows[i] == old(rows)[i].(stored := rows[i].stored, hash := crypto.hash(key.value), name := rows[i].name)
        && (newName == None || newName == Some("") ==> rows[i].name == old(rows)[i].name)
        && (newName.Some? && newName.value != "" ==> rows[i].name == newName.value)
      ensures forall i :: 0 <= i < |rows| && rows[i].id != id ==> rows[i] == old(rows)[i]
    {
      var i := IndexOf(rows, id, userId);
      if i == |rows| {
        return Raise;
      }
      var apiKey := crypto.generate(issued, rows[i].environment);
      var row := Rotated(crypto, rows[i], issued, newName);
      issued := issued + 1;
      if updateFails {
        return Raise;
      }
      RotateKeeps(crypto, rows, i, issued - 1, newName);
      rows := rows[i := row];
      return Ok(apiKey);
    }
  }

  lemma InsertKeeps(c: Crypto, rows: seq<KeyRow>, row: KeyRow, key: string, environment: string, issued: nat)
    requires c.Sound() && UniqueIds(rows) && DistinctKeys(c, rows) && HashesAgree(c, rows) && issued > 0
    requires NotYetIssued(c, rows, issued - 1) && key == c.generate(issued - 1, environment)
    requires c.decrypt(row.stored) == Some(key) && row.hash == c.hash(key) && forall r <- rows :: r.id != row.id
    ensures var rows' := rows + [row];
      && !HasKey(c, rows, key) && UniqueIds(rows') && DistinctKeys(c, rows') && HashesAgree(c, rows')
      && NotYetIssued(c, rows', issued)
  {
    var rows' := rows + [row];
    forall i | 0 <= i < |rows| ensures rows[i].id != row.id && KeyOf(c, rows[i]) != Some(key) {
      assert rows[i] in rows;
    }
    forall n, e | n >= issued ensures !HasKey(c, rows', c.generate(n, e)) {
      assert !HasKey(c, rows, c.generate(n, e));
    }
  }

  lemma RotateKeeps(c: Crypto, rows: seq<KeyRow>, i: nat, n: nat, name: Option<string>)
    requires c.Sound() && UniqueIds(rows) && DistinctKeys(c, rows) && HashesAgree(c, rows)
    requires NotYetIssued(c, rows, n) && i < |rows|
    ensures var rows' := rows[i := Rotated(c, rows[i], n, name)];
      && RekeysSome(c, rows, rows', map[i := c.generate(n, rows[i].environment)])
      && UniqueIds(rows') && DistinctKeys(c, rows') && HashesAgree(c, rows') && NotYetIssued(c, rows', n + 1)
  {
    var row := Rotated(c, rows[i], n, name);
    var rows' := rows[i := row];
    var key := c.generate(n, rows[i].environment);
    assert c.decrypt(row.stored) == Some(key);
    RekeyKeepsDistinct(c, rows, rows', map[i := key]);
    forall m, e | m >= n + 1 ensures !HasKey(c, rows', c.generate(m, e)) {
      assert !HasKey(c, rows, c.generate(m, e));
      assert c.generate(m, e) != key;
      assert forall r <- rows' :: r == row || r in rows;
    }
  }

  lemma {:induction false} SameKeysSameFirst(c: Crypto, rows: seq<KeyRow>, rows': seq<KeyRow>, key: string)
    requires |rows'| == |rows| && forall i :: 0 <= i < |rows| ==> KeyOf(c, rows'[i]) == KeyOf(c, rows[i])
    ensures FirstWith(c, rows', key) == FirstWith(c, rows, key)
  {
    if rows != [] {
      SameKeysSameFirst(c, rows[1..], rows'[1..], key);
    }
  }

  lemma HasKeyIff(c: Crypto, rows: seq<KeyRow>, key: string)
    ensures HasKey(c, rows, key) <==> FirstWith(c, rows, key) < |rows|
  {
    FirstWithMeaning(c, rows, key);
  }

  lemma TouchKeeps(c: Crypto, rows: seq<KeyRow>, id: int, now: real, issued: nat)
    requires UniqueIds(rows) && DistinctKeys(c, rows) && HashesAgree(c, rows) && NotYetIssued(c, rows, issued)
    ensures var rows' := Touch(rows, id, now);
      UniqueIds(rows') && DistinctKeys(c, rows') && HashesAgree(c, rows') && NotYetIssued(c, rows', issued)
  {
    var rows' := Touch(rows, id, now);
    forall n, e | n >= issued ensures !HasKey(c, rows', c.generate(n, e)) {
      SameKeysSameFirst(c, rows', rows, c.generate(n, e));
      HasKeyIff(c, rows, c.generate(n, e));
      HasKeyIff(c, rows', c.generate(n, e));
    }
    forall r | r in rows' && c.decrypt(r.stored).Some? ensures r.hash == c.hash(c.decrypt(r.stored).value) {
      var i :| 0 <= i < |rows'| && rows'[i] == r;
      assert rows[i] in rows;
    }
  }

  /** The time of use has no influence on verdicts. */
  lemma TouchInvisible(c: Crypto, rows: seq<KeyRow>, id: int, now: real, req: Request)
    ensures Validate(c, Touch(rows, id, now), req) == Validate(c, rows, req)
  {
    SameKeysSameFirst(c, rows, Touch(rows, id, now), req.key);
  }

  // ----- Bulk rotation -----

  /** The arguments of a bulk rotation, and which of its writes fail. */
  datatype Bulk = Bulk(userId: int, environment: Option<string>, fails: int -> bool) {
    predicate Selects(r: KeyRow) {
      && r.userId == userId && r.active
      && (environment.Some? && environment.value != "" ==> r.environment == environment.value)
    }

    /** The row is selected and its write succeeds. */
    predicate Rekeys(r: KeyRow) {
      Selects(r) && !fails(r.id)
    }
  }

  function SelectedBefore(rows: seq<KeyRow>, k: nat, b: Bulk): nat
    requires k <= |rows|
  {
    if k == 0 then 0
    else SelectedBefore(rows, k - 1, b) + if b.Selects(rows[k - 1]) then 1 else 0
  }

  /** The key generated for row `i`. */
  function NewKey(c: Crypto, rows: seq<KeyRow>, issued: nat, b: Bulk, i: nat): string
    requires i < |rows|
  {
    c.generate(issued + SelectedBefore(rows, i, b), rows[i].environment)
  }

  /** The positions that a bulk rotation rekeys among the first `k`, with their new keys. */
  function BulkKeys(c: Crypto, rows: seq<KeyRow>, k: nat, issued: nat, b: Bulk): map<nat, string>
    requires k <= |rows|
  {
    map i: nat | i < k && b.Rekeys(rows[i]) :: NewKey(c, rows, issued, b, i)
  }

  /** Row `i` with its new key. */
  function BulkRotated(c: Crypto, rows: seq<KeyRow>, issued: nat, b: Bulk, i: nat): KeyRow
    requires i < |rows|
  {
    Rotated(c, rows[i], issued + SelectedBefore(rows, i, b), None)
  }

  function BulkRows(c: Crypto, rows: seq<KeyRow>, k: nat, issued: nat, b: Bulk): seq<KeyRow>
    requires k <= |rows|
  {
    seq(|rows|, i requires 0 <= i < |rows| =>
      if i < k && b.Rekeys(rows[i]) then BulkRotated(c, rows, issued, b, i) else rows[i])
  }

  lemma {:induction false} SelectedBeforeMonotone(rows: seq<KeyRow>, i: nat, k: nat, b: Bulk)
    requires i < k <= |rows| && b.Selects(rows[i])
    ensures SelectedBefore(rows, i, b) < SelectedBefore(rows, k, b)
  {
    if i < k - 1 {
      SelectedBeforeMonotone(rows, i, k - 1, b);
    }
  }

  lemma BulkKeysFresh(c: Crypto, rows: seq<KeyRow>, k: nat, issued: nat, b: Bulk)
    requires c.Sound() && NotYetIssued(c, rows, issued) && k <= |rows|
    ensures var newKeys := BulkKeys(c, rows, k, issued, b);
      && (forall i <- newKeys :: i < |rows| && !HasKey(c, rows, newKeys[i]))
      && (forall i, j :: i in newKeys && j in newKeys && i != j ==> newKeys[i] != newKeys[j])
  {
    var newKeys := BulkKeys(c, rows, k, issued, b);
    forall i, j | i in newKeys && j in newKeys && i < j ensures newKeys[i] != newKeys[j] {
      SelectedBeforeMonotone(rows, i, j, b);
    }
    forall i | i in newKeys ensures !HasKey(c, rows, newKeys[i]) {
      assert issued + SelectedBefore(rows, i, b) >= issued;
    }
  }

  lemma RotatedIsRekeyed(c: Crypto, r: KeyRow, n: nat, name: Option<string>)
    requires c.Sound()
    ensures Rekeyed(c, r, Rotated(c, r, n, name), c.generate(n, r.environment))
  {
    assert c.decrypt(c.encrypt(c.generate(n, r.environment), n)).Some?;
  }

  /** Row `i` after the first `k` rows: rotated when it is among them, selected and written, else as before. */
  lemma BulkRowsAt(c: Crypto, rows: seq<KeyRow>, k: nat, issued: nat, b: Bulk, i: nat)
    requires k <= |rows| && i < |rows|
    ensures BulkRows(c, rows, k, issued, b)[i]
         == if i < k && b.Rekeys(rows[i]) then BulkRotated(c, rows, issued, b, i) else rows[i]
  {
  }

  lemma BulkKeysAt(c: Crypto, rows: seq<KeyRow>, k: nat, issued: nat, b: Bulk, i: nat)
    requires k <= |rows| && i < |rows|
    ensures var newKeys := BulkKeys(c, rows, k, issued, b);
      && (i in newKeys <==> i < k && b.Rekeys(rows[i]))
      && (i in newKeys ==> newKeys[i] == NewKey(c, rows, issued, b, i))
  {
  }

  /** A row stays, or is rekeyed with its new key. */
  predicate RowFollows(c: Crypto, r: KeyRow, r': KeyRow, newKeys: map<nat, string>, i: nat) {
    if i in newKeys then Rekeyed(c, r, r', newKeys[i]) else r' == r
  }

  lemma BulkRotatedRekeyed(c: Crypto, rows: seq<KeyRow>, issued: nat, b: Bulk, i: nat)
    requires c.Sound() && i < |rows|
    ensures Rekeyed(c, rows[i], BulkRotated(c, rows, issued, b, i), NewKey(c, rows, issued, b, i))
    ensures BulkRotated(c, rows, issued, b, i).name == rows[i].name
  {
    RotatedIsRekeyed(c, rows[i], issued + SelectedBefore(rows, i, b), None);
  }

  lemma BulkRow(c: Crypto, rows: seq<KeyRow>, k: nat, issued: nat, b: Bulk, i: nat)
    requires c.Sound() && k <= |rows| && i < |rows|
    ensures RowFollows(c, rows[i], BulkRows(c, rows, k, issued, b)[i], BulkKeys(c, rows, k, issued, b), i)
  {
    BulkRowsAt(c, rows, k, issued, b, i);
    BulkKeysAt(c, rows, k, issued, b, i);
    BulkRotatedRekeyed(c, rows, issued, b, i);
  }

  /** A bulk rotation gives every selected row whose write succeeds a key of its own, and touches no other row. */
  lemma BulkRekeys(c: Crypto, rows: seq<KeyRow>, k: nat, issued: nat, b: Bulk)
    requires c.Sound() && NotYetIssued(c, rows, issued) && k <= |rows|
    ensures RekeysSome(c, rows, BulkRows(c, rows, k, issued, b), BulkKeys(c, rows, k, issued, b))
    ensures forall i: nat ::
      i in BulkKeys(c, rows, k, issued, b) <==>
      && i < k && rows[i].userId == b.userId && rows[i].active && !b.fails(rows[i].id)
      && (b.environment.Some? ==> b.environment.value == "" || b.environment.value == rows[i].environment)
  {
    BulkKeysFresh(c, rows, k, issued, b);
    var rows' := BulkRows(c, rows, k, issued, b);
    var newKeys := BulkKeys(c, rows, k, issued, b);
    forall i: nat | i < |rows| ensures RowFollows(c, rows[i], rows'[i], newKeys, i) {
      BulkRow(c, rows, k, issued, b, i);
    }
  }

  lemma {:induction false} IndexOfUnique(rows: seq<KeyRow>, k: nat)
    requires UniqueIds(rows) && k < |rows|
    ensures IndexOf(rows, rows[k].id, rows[k].userId) == k
  {
    if k > 0 {
      assert rows[0].id != rows[k].id;
      IndexOfUnique(rows[1..], k - 1);
    }
  }

  /** The returned list: id, name and new key of each rotated row. */
  function BulkReport(c: Crypto, rows: seq<KeyRow>, k: nat, issued: nat, b: Bulk): seq<(int, string, string)>
    requires k <= |rows|
  {
    if k == 0 then []
    else
      var before, r := BulkReport(c, rows, k - 1, issued, b), rows[k - 1];
      if b.Rekeys(r)
      then before + [(r.id, r.name, c.generate(issued + SelectedBefore(rows, k - 1, b), r.environment))]
      else before
  }

  /** Where a bulk rotation is after the first `k` rows. */
  datatype Progress = Progress(rows: seq<KeyRow>, issued: nat, report: seq<(int, string, string)>)

  function ProgressAt(c: Crypto, rows: seq<KeyRow>, k: nat, first: nat, b: Bulk): Progress
    requires k <= |rows|
  {
    Progress(BulkRows(c, rows, k, first, b), first + SelectedBefore(rows, k, b), BulkReport(c, rows, k, first, b))
  }

  lemma ProgressStart(c: Crypto, rows: seq<KeyRow>, first: nat, b: Bulk)
    ensures ProgressAt(c, rows, 0, first, b) == Progress(rows, first, [])
  {
    assert BulkRows(c, rows, 0, first, b) == rows;
  }

  /** A row that is not selected. */
  lemma BulkSkip(c: Crypto, rows: seq<KeyRow>, k: nat, first: nat, b: Bulk)
    requires k < |rows| && !b.Selects(rows[k])
    ensures ProgressAt(c, rows, k + 1, first, b) == ProgressAt(c, rows, k, first, b)
  {
  }

  lemma RowsNext(c: Crypto, rows: seq<KeyRow>, k: nat, first: nat, b: Bulk)
    requires k < |rows| && b.Selects(rows[k])
    ensures var before := BulkRows(c, rows, k, first, b);
      BulkRows(c, rows, k + 1, first, b)
      == if b.fails(rows[k].id) then before
         else before[k := BulkRotated(c, rows, first, b, k)]
  {
    forall i | 0 <= i < |rows|
      ensures BulkRows(c, rows, k + 1, first, b)[i]
           == if i == k && !b.fails(rows[k].id) then BulkRotated(c, rows, first, b, k)
              else BulkRows(c, rows, k, first, b)[i]
    {
      BulkRowsAt(c, rows, k, first, b, i);
      BulkRowsAt(c, rows, k + 1, first, b, i);
    }
  }

  /** What one rotation does to the progress, given the number it draws and whether its write fails. */
  function Advance(c: Crypto, p: Progress, k: nat, r: KeyRow, failed: bool): Progress
    requires k < |p.rows|
  {
    if failed then p.(issued := p.issued + 1)
    else Progress(p.rows[k := Rotated(c, r, p.issued, None)], p.issued + 1,
                  p.report + [(r.id, r.name, c.generate(p.issued, r.environment))])
  }

  lemma BulkNext(c: Crypto, rows: seq<KeyRow>, k: nat, first: nat, b: Bulk)
    requires k < |rows| && b.Selects(rows[k])
    ensures ProgressAt(c, rows, k + 1, first, b)
         == Advance(c, ProgressAt(c, rows, k, first, b), k, rows[k], b.fails(rows[k].id))
  {
    RowsNext(c, rows, k, first, b);
  }

  lemma RowStillThere(c: Crypto, rows: seq<KeyRow>, k: nat, first: nat, b: Bulk)
    requires k < |rows| && UniqueIds(BulkRows(c, rows, k, first, b))
    ensures var before := BulkRows(c, rows, k, first, b);
      before[k] == rows[k] && IndexOf(before, rows[k].id, rows[k].userId) == k
  {
    IndexOfUnique(BulkRows(c, rows, k, first, b), k);
  }

  // The report and the rows in terms of the row fields alone.

  /** The row keeps everything but its key; the key is new, and reported with the id and the name. */
  predicate NewlyKeyed(c: Crypto, rows: seq<KeyRow>, r: KeyRow, r': KeyRow, report: seq<(int, string, string)>) {
    && c.decrypt(r'.stored).Some? && !HasKey(c, rows, c.decrypt(r'.stored).value)
    && r' == r.(stored := r'.stored, hash := c.hash(c.decrypt(r'.stored).value))
    && (r.id, r.name, c.decrypt(r'.stored).value) in report
  }

  predicate BulkOutcome(
    c: Crypto, rows: seq<KeyRow>, r: KeyRow, r': KeyRow, b: Bulk, report: seq<(int, string, string)>)
  {
    if r.userId == b.userId && r.active && !b.fails(r.id)
       && (b.environment.Some? ==> b.environment.value == "" || b.environment.value == r.environment)
    then NewlyKeyed(c, rows, r, r', report)
    else r' == r
  }

  predicate EntryFor(c: Crypto, r: KeyRow, r': KeyRow, b: Bulk, entry: (int, string, string)) {
    && r.userId == b.userId && r.active && !b.fails(r.id)
    && (b.environment.Some? ==> b.environment.value == "" || b.environment.value == r.environment)
    && c.decrypt(r'.stored).Some? && entry == (r.id, r.name, c.decrypt(r'.stored).value)
  }

  lemma {:induction false} InReport(c: Crypto, rows: seq<KeyRow>, k: nat, first: nat, b: Bulk, i: nat)
    requires i < k <= |rows| && b.Rekeys(rows[i])
    ensures (rows[i].id, rows[i].name, NewKey(c, rows, first, b, i)) in BulkReport(c, rows, k, first, b)
  {
    if i < k - 1 {
      InReport(c, rows, k - 1, first, b, i);
    }
  }

  lemma {:induction false} ReportedRow(
    c: Crypto, rows: seq<KeyRow>, k: nat, first: nat, b: Bulk, entry: (int, string, string))
    returns (i: nat)
    requires k <= |rows| && entry in BulkReport(c, rows, k, first, b)
    ensures i < k && b.Rekeys(rows[i]) && entry == (rows[i].id, rows[i].name, NewKey(c, rows, first, b, i))
  {
    if entry in BulkReport(c, rows, k - 1, first, b) {
      i := ReportedRow(c, rows, k - 1, first, b, entry);
    } else {
      i := k - 1;
    }
  }

  lemma BulkRotatedKey(c: Crypto, rows: seq<KeyRow>, first: nat, b: Bulk, i: nat)
    requires c.Sound() && i < |rows|
    ensures c.decrypt(BulkRotated(c, rows, first, b, i).stored) == Some(NewKey(c, rows, first, b, i))
  {
    var n := first + SelectedBefore(rows, i, b);
    assert c.decrypt(c.encrypt(c.generate(n, rows[i].environment), n)).Some?;
  }

  lemma RotatedIsNewlyKeyed(c: Crypto, rows: seq<KeyRow>, first: nat, b: Bulk, i: nat)
    requires c.Sound() && NotYetIssued(c, rows, first) && i < |rows| && b.Rekeys(rows[i])
    ensures NewlyKeyed(c, rows, rows[i], BulkRotated(c, rows, first, b, i), BulkReport(c, rows, |rows|, first, b))
  {
    InReport(c, rows, |rows|, first, b, i);
    BulkRotatedKey(c, rows, first, b, i);
  }

  lemma BulkOutcomeAt(c: Crypto, rows: seq<KeyRow>, first: nat, b: Bulk, i: nat)
    requires c.Sound() && NotYetIssued(c, rows, first) && i < |rows|
    ensures BulkOutcome(c, rows, rows[i], BulkRows(c, rows, |rows|, first, b)[i], b,
                        BulkReport(c, rows, |rows|, first, b))
  {
    BulkRowsAt(c, rows, |rows|, first, b, i);
    if b.Rekeys(rows[i]) {
      RotatedIsNewlyKeyed(c, rows, first, b, i);
    }
  }

  lemma EntryForRow(c: Crypto, rows: seq<KeyRow>, first: nat, b: Bulk, i: nat, entry: (int, string, string))
    requires c.Sound() && i < |rows| && b.Rekeys(rows[i])
    requires entry == (rows[i].id, rows[i].name, NewKey(c, rows, first, b, i))
    ensures EntryFor(c, rows[i], BulkRows(c, rows, |rows|, first, b)[i], b, entry)
  {
    BulkRowsAt(c, rows, |rows|, first, b, i);
    BulkRotatedKey(c, rows, first, b, i);
  }

  /** The loop body: rotate one selected key; a failed rotation is skipped. */
  method RotateSelected(store: ApiKeyStore, ghost k: nat, r: KeyRow, failed: bool, report: seq<(int, string, string)>)
    returns (report': seq<(int, string, string)>)
    requires store.Valid() && k < |store.rows| && store.rows[k] == r && IndexOf(store.rows, r.id, r.userId) == k
    modifies store
    ensures store.Valid()
    ensures Progress(store.rows, store.issued, report')
         == Advance(store.crypto, Progress(old(store.rows), old(store.issued), report), k, r, failed)
  {
    var key := store.RotateApiKey(r.id, r.userId, None, failed);
    report' := if key.Ok? then report + [(r.id, r.name, key.value)] else report;
  }

  /** `bulk_rotate_user_keys`: rotate the selected keys one by one. */
  method BulkRotateUserKeys(store: ApiKeyStore, b: Bulk)
    returns (rotated: seq<(int, string, string)>)
    requires store.Valid()
    modifies store
    ensures store.Valid()
    ensures Progress(store.rows, store.issued, rotated)
         == ProgressAt(store.crypto, old(store.rows), |old(store.rows)|, old(store.issued), b)
    ensures |store.rows| == |old(store.rows)|
    ensures forall i :: 0 <= i < |store.rows| ==>
      var r, r' := old(store.rows)[i], store.rows[i];
      if r.userId == b.userId && r.active && !b.fails(r.id)
         && (b.environment.Some? ==> b.environment.value == "" || b.environment.value == r.environment)
      then NewlyKeyed(store.crypto, old(store.rows), r, r', rotated)
      else r' == r
    ensures forall entry <- rotated ::
      exists i | 0 <= i < |store.rows| :: EntryFor(store.crypto, old(store.rows)[i], store.rows[i], b, entry)
  {
    var snapshot := store.rows;
    ghost var c, first := store.crypto, store.issued;
    rotated := [];
    ProgressStart(c, snapshot, first, b);
    for k := 0 to |snapshot|
      invariant store.Valid()
      invariant Progress(store.rows, store.issued, rotated) == ProgressAt(c, snapshot, k, first, b)
    {
      var r := snapshot[k];
      if !b.Selects(r) {
        BulkSkip(c, snapshot, k, first, b);
      } else {
        RowStillThere(c, snapshot, k, first, b);
        BulkNext(c, snapshot, k, first, b);
        rotated := RotateSelected(store, k, r, b.fails(r.id), rotated);
      }
    }
    forall i | 0 <= i < |store.rows| ensures BulkOutcome(c, snapshot, snapshot[i], store.rows[i], b, rotated) {
      BulkOutcomeAt(c, snapshot, first, b, i);
    }
    forall entry | entry in rotated
      ensures exists i | 0 <= i < |store.rows| :: EntryFor(c, snapshot[i], store.rows[i], b, entry)
    {
      var i := ReportedRow(c, snapshot, |snapshot|, first, b, entry);
      EntryForRow(c, snapshot, first, b, i, entry);
    }
  }

  lemma BulkRowAt(c: Crypto, rows: seq<KeyRow>, issued: nat, b: Bulk, i: nat)
    requires c.Sound() && i < |rows| && b.Rekeys(rows[i])
    ensures var newKeys := BulkKeys(c, rows, |rows|, issued, b);
      i in newKeys && newKeys[i] == NewKey(c, rows, issued, b, i)
    ensures BulkRows(c, rows, |rows|, issued, b)[i].name == rows[i].name
  {
    BulkRowsAt(c, rows, |rows|, issued, b, i);
    BulkKeysAt(c, rows, |rows|, issued, b, i);
    BulkRotatedRekeyed(c, rows, issued, b, i);
  }

  /** The old key of a rekeyed row is rejected and its new key gets the verdict of the row. */
  lemma RekeyVerdicts(c: Crypto, rows: seq<KeyRow>, rows': seq<KeyRow>, newKeys: map<nat, string>, i: nat, req: Request)
    requires DistinctKeys(c, rows) && RekeysSome(c, rows, rows', newKeys) && i in newKeys
    requires KeyOf(c, rows[i]) == Some(req.key)
    ensures Validate(c, rows', req) == Rejected(Some(InvalidKey))
    ensures Validate(c, rows', req.(key := newKeys[i])) == Renamed(Validate(c, rows, req), newKeys[i], rows'[i].name)
  {
    RekeyOldKey(c, rows, rows', newKeys, i, req);
    RekeyNewKey(c, rows, rows', newKeys, i, req);
  }

  /** After a bulk rotation, for each rotated row: the old key is rejected and the new key gets the row's verdict. */
  lemma BulkVerdicts(c: Crypto, rows: seq<KeyRow>, issued: nat, b: Bulk, i: nat, req: Request)
    requires c.Sound() && DistinctKeys(c, rows) && NotYetIssued(c, rows, issued)
    requires i < |rows| && b.Rekeys(rows[i])
    requires KeyOf(c, rows[i]) == Some(req.key)
    ensures var rows' := BulkRows(c, rows, |rows|, issued, b);
      var newKey := NewKey(c, rows, issued, b, i);
      && Validate(c, rows', req) == Rejected(Some(InvalidKey))
      && Validate(c, rows', req.(key := newKey)) == Renamed(Validate(c, rows, req), newKey, rows[i].name)
  {
    BulkRekeys(c, rows, |rows|, issued, b);
    BulkRowAt(c, rows, issued, b, i);
    RekeyVerdicts(c, rows, BulkRows(c, rows, |rows|, issued, b), BulkKeys(c, rows, |rows|, issued, b), i, req);
  }

  /** Every other key keeps its verdict over a bulk rotation. */
  lemma BulkOthers(c: Crypto, rows: seq<KeyRow>, issued: nat, b: Bulk, req: Request)
    requires c.Sound() && DistinctKeys(c, rows) && NotYetIssued(c, rows, issued)
    requires forall n, e :: n >= issued ==> c.generate(n, e) != req.key
    requires forall r <- rows :: b.Rekeys(r) ==> KeyOf(c, r) != Some(req.key)
    ensures Validate(c, BulkRows(c, rows, |rows|, issued, b), req) == Validate(c, rows, req)
  {
    BulkRekeys(c, rows, |rows|, issued, b);
    RekeyOthers(c, rows, BulkRows(c, rows, |rows|, issued, b), BulkKeys(c, rows, |rows|, issued, b), req);
  }

  /** After a single rotation: the same for its row, and no other verdict changes. */
  lemma RotationVerdicts(c: Crypto, rows: seq<KeyRow>, i: nat, n: nat, name: Option<string>, req: Request)
    requires c.Sound() && UniqueIds(rows) && DistinctKeys(c, rows) && HashesAgree(c, rows) && NotYetIssued(c, rows, n)
    requires i < |rows|
    ensures var rows' := rows[i := Rotated(c, rows[i], n, name)];
      var newKey := c.generate(n, rows[i].environment);
      && (KeyOf(c, rows[i]) == Some(req.key) ==>
            && Validate(c, rows', req) == Rejected(Some(InvalidKey))
            && Validate(c, rows', req.(key := newKey)) == Renamed(Validate(c, rows, req), newKey, rows'[i].name))
      && (KeyOf(c, rows[i]) != Some(req.key) && req.key != newKey ==> Validate(c, rows', req) == Validate(c, rows, req))
  {
    var newKeys := map[i := c.generate(n, rows[i].environment)];
    var rows' := rows[i := Rotated(c, rows[i], n, name)];
    RotateKeeps(c, rows, i, n, name);
    RekeyNewKey(c, rows, rows', newKeys, i, req);
    if KeyOf(c, rows[i]) == Some(req.key) {
      RekeyOldKey(c, rows, rows', newKeys, i, req);
    } else if req.key != newKeys[i] {
      RekeyOthers(c, rows, rows', newKeys, req);
    }
  }

  // ----- Further properties of the verdict -----

  /** The row may be used for the request. */
  predicate Usable(c: Crypto, r: KeyRow, req: Request) {
    && r.active
    && (r.expiration.Some? ==> req.now <= r.expiration.value)
    && (r.maxRequests.Some? ==> r.maxRequests.value == 0 || r.used < r.maxRequests.value)
    && (req.clientIp == "" || r.allowlist == [] || c.ipAllowed(req.clientIp, r.allowlist))
    && (req.referer == "" || r.referrers == [] || c.domainAllowed(req.referer, r.referrers))
  }

  /** A request is accepted exactly when a usable row stands for its key, and the answer then describes that row. */
  lemma AcceptedIff(c: Crypto, rows: seq<KeyRow>, req: Request)
    requires DistinctKeys(c, rows)
    ensures Validate(c, rows, req).Accepted? <==> exists r <- rows :: StandsFor(c, r, req.key) && Usable(c, r, req)
    ensures forall r <- rows :: Validate(c, rows, req).Accepted? && StandsFor(c, r, req.key) ==>
      var info := Validate(c, rows, req).info;
      info.key == req.key && info.keyId == r.id && info.userId == r.userId && info.name == r.name && info.active
      && info.expiration == r.expiration && info.maxRequests == r.maxRequests && info.used == r.used
      && info.environment == r.environment && info.allowlist == r.allowlist && info.referrers == r.referrers
  {
    ScanIsLookup(c, rows, req);
    forall r | r in rows ensures KeyOf(c, r) == Some(req.key) <==> StandsFor(c, r, req.key) {
      KeyOfMeaning(c, r, req.key);
    }
    forall r | r in rows && KeyOf(c, r) == Some(req.key) ensures Validate(c, rows, req) == Check(c, r, req) {
      var i :| 0 <= i < |rows| && rows[i] == r;
      ValidateAt(c, rows, req, i);
    }
  }

  /** What `violation` has against the row. */
  predicate Violates(c: Crypto, r: KeyRow, req: Request, violation: Violation) {
    match violation
    case InvalidKey => false
    case InactiveKey => !r.active
    case ExpiredKey => r.expiration.Some? && r.expiration.value < req.now
    case LimitExceeded => r.maxRequests.Some? && r.maxRequests.value != 0 && r.maxRequests.value <= r.used
    case IpNotAllowed => req.clientIp != "" && r.allowlist != [] && !c.ipAllowed(req.clientIp, r.allowlist)
    case DomainNotAllowed => req.referer != "" && r.referrers != [] && !c.domainAllowed(req.referer, r.referrers)
  }

  /** A rejected row is logged with the first thing wrong with it, in the order of the checks; a usable one has none. */
  lemma FirstViolationLogged(c: Crypto, r: KeyRow, req: Request)
    ensures var v := Check(c, r, req);
      && (v.Accepted? <==> forall violation :: !Violates(c, r, req, violation))
      && (v.Rejected? ==> v.logged.Some? && Violates(c, r, req, v.logged.value))
      && (v == Rejected(Some(ExpiredKey)) ==> r.active)
      && (v == Rejected(Some(LimitExceeded)) ==> r.active && !Violates(c, r, req, ExpiredKey))
      && (v == Rejected(Some(IpNotAllowed)) ==>
            r.active && !Violates(c, r, req, ExpiredKey) && !Violates(c, r, req, LimitExceeded))
      && (v == Rejected(Some(DomainNotAllowed)) ==>
            r.active && !Violates(c, r, req, ExpiredKey) && !Violates(c, r, req, LimitExceeded)
            && !Violates(c, r, req, IpNotAllowed))
  {
    if Check(c, r, req).Accepted? {
      forall violation ensures !Violates(c, r, req, violation) {
      }
    } else {
      assert Violates(c, r, req, Check(c, r, req).logged.value);
    }
  }

  /** A key rejected as inactive, expired or over its limit stays rejected, for the same reason or an earlier one,
      however much later it is tried, from wherever, and however often it has been used since. */
  lemma RejectionsPersist(c: Crypto, r: KeyRow, req: Request, later: Request, used: int)
    requires req.now <= later.now && r.used <= used
    ensures var v, w := Check(c, r, req), Check(c, r.(used := used), later);
      && (v == Rejected(Some(InactiveKey)) ==> w == v)
      && (v == Rejected(Some(ExpiredKey)) ==> w == v)
      && (v == Rejected(Some(LimitExceeded)) ==> w == v || w == Rejected(Some(ExpiredKey)))
      && (w.Accepted? ==> !v.Rejected? || v.logged.value in {IpNotAllowed, DomainNotAllowed})
  {
  }

  /** A key created with the given settings may be used for the request. */
  predicate UsableWhenCreated(
    c: Crypto, days: Option<int>, maxRequests: Option<int>, allowlist: seq<string>, referrers: seq<string>, now: real,
    req: Request)
  {
    && (days.Some? && days.value != 0 ==> req.now <= now + (days.value * 86400) as real)
    && (maxRequests.Some? ==> maxRequests.value >= 0)
    && (req.clientIp == "" || allowlist == [] || c.ipAllowed(req.clientIp, allowlist))
    && (req.referer == "" || referrers == [] || c.domainAllowed(req.referer, referrers))
  }

  lemma NewRowUsable(c: Crypto, row: KeyRow, days: Option<int>, maxRequests: Option<int>, now: real, req: Request)
    requires row.active && row.used == 0 && row.maxRequests == maxRequests
    requires row.expiration == if days.Some? && days.value != 0 then Some(now + (days.value * 86400) as real) else None
    ensures Usable(c, row, req)
       <==> UsableWhenCreated(c, days, maxRequests, row.allowlist, row.referrers, now, req)
  {
  }

  /** A newly created key is accepted exactly for the requests its settings allow: until its expiry if it has one, with
      a request limit that is not negative, from its addresses and referrers. Every other key keeps its verdict; if
      there was no row before, all other keys are rejected before and after. */
  lemma CreatedKeyVerdict(
    c: Crypto, rows: seq<KeyRow>, n: nat, row: KeyRow, id: int, userId: int, name: string, environment: string,
    days: Option<int>, maxRequests: Option<int>, allowlist: seq<string>, referrers: seq<string>, now: real,
    req: Request)
    requires c.Sound() && UniqueIds(rows) && DistinctKeys(c, rows) && HashesAgree(c, rows) && NotYetIssued(c, rows, n)
    requires row == NewRow(c, n, id, userId, name, environment, days, maxRequests, allowlist, referrers, now)
    requires forall r <- rows :: r.id != id
    ensures req.key == c.generate(n, environment) ==>
      (Validate(c, rows + [row], req).Accepted?
       <==> UsableWhenCreated(c, days, maxRequests, allowlist, referrers, now, req))
    ensures req.key != c.generate(n, environment) ==>
      if rows == [] then Validate(c, rows, req).Rejected? && Validate(c, rows + [row], req).Rejected?
      else Validate(c, rows + [row], req) == Validate(c, rows, req)
  {
    var key := c.generate(n, environment);
    InsertKeeps(c, rows, row, key, environment, n + 1);
    if req.key == key {
      ValidateAt(c, rows + [row], req, |rows|);
      NewRowUsable(c, row, days, maxRequests, now, req);
    } else {
      OtherKeys(c, rows, row, key, req);
    }
  }

  /** A row for one key does not change the verdict for another. */
  lemma OtherKeys(c: Crypto, rows: seq<KeyRow>, row: KeyRow, key: string, req: Request)
    requires DistinctKeys(c, rows) && DistinctKeys(c, rows + [row]) && KeyOf(c, row) == Some(key) && req.key != key
    ensures if rows == [] then Validate(c, rows, req).Rejected? && Validate(c, rows + [row], req).Rejected?
            else Validate(c, rows + [row], req) == Validate(c, rows, req)
  {
    if r :| r in rows && KeyOf(c, r) == Some(req.key) {
      var i :| 0 <= i < |rows| && rows[i] == r;
      ValidateAt(c, rows, req, i);
      ValidateAt(c, rows + [row], req, i);
    } else {
      assert !HasKey(c, rows + [row], req.key);
      ValidateAbsent(c, rows + [row], req);
      if rows != [] {
        ValidateAbsent(c, rows, req);
      }
    }
  }
}
