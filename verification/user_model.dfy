/**
 * The users collection behind the Mongoose `User` model: documents with a
 * required, unique, lower-cased and trimmed email, a required password digest, an
 * optional name and store-set timestamps.
 */
module UserModel {
  import opened Wrappers
  import opened Js

  /** A document id as MongoDB assigns it; the serial stands for the ObjectId's bytes. */
  datatype ObjectId = ObjectId(serial: nat)

  /**
   * A bcrypt digest of `secret` at cost `rounds`, kept symbolic: the digest text
   * and its salt are not modelled, only what was hashed and how hard.
   */
  datatype Digest = Bcrypt(secret: string, rounds: nat)

  /** A stored user document; `createdAt` and `updatedAt` are set by the store. */
  datatype User = User(
    id: ObjectId,
    email: string,
    password: Digest,
    name: Option<string>,
    createdAt: int,
    updatedAt: int)

  /** The collection: its documents in insertion order, the next id to hand out, and whether MongoDB answers. */
  datatype Collection = Collection(users: seq<User>, nextSerial: nat, online: bool)

  /** Why a collection call failed. Only a unique-index violation carries code 11000. */
  datatype DbError = DuplicateKey | ValidationFailed | Unreachable

  function ErrorCode(e: DbError): Option<int>
  {
    if e == DuplicateKey then Some(11000) else None
  }

  /** The schema's `lowercase: true, trim: true` setters, applied on create and to query values. */
  function NormalizeEmail(s: string): string
  {
    Trim(ToLower(s))
  }

  /** The invariants the schema and its unique index keep. */
  ghost predicate Valid(c: Collection)
  {
    && (forall i, j :: 0 <= i < j < |c.users| ==> c.users[i].email != c.users[j].email)
    && (forall i :: 0 <= i < |c.users| ==> c.users[i].id.serial < c.nextSerial)
    && (forall i, j :: 0 <= i < j < |c.users| ==> c.users[i].id != c.users[j].id)
    && (forall i :: 0 <= i < |c.users| ==> c.users[i].email != "" && IsNormalized(c.users[i].email))
  }

  /** Lower case, and no whitespace at either end: the shape the setters leave an email in. */
  predicate IsNormalized(e: string)
  {
    IsLower(e) && (e == [] || (!IsWhitespace(e[0]) && !IsWhitespace(e[|e| - 1])))
  }

  lemma TrimKeepsLower(s: string)
    requires IsLower(s)
    ensures IsLower(Trim(s))
  {
    var t := TrimStart(s);
    assert IsLower(t);
    assert IsLower(TrimEnd(t));
  }

  /** The setters always leave an email normalised. */
  lemma NormalizeEmailIsNormalized(s: string)
    ensures IsNormalized(NormalizeEmail(s))
  {
    TrimKeepsLower(ToLower(s));
  }

  /** A normalised email is exactly one the setters leave unchanged. */
  lemma NormalizedIsFixed(e: string)
    ensures IsNormalized(e) <==> NormalizeEmail(e) == e
  {
    if IsNormalized(e) {
      ToLowerFixed(e);
      assert TrimStart(e) == e;
      assert TrimEnd(e) == e;
    } else if NormalizeEmail(e) == e {
      NormalizeEmailIsNormalized(e);
    }
  }

  /** Normalising twice is normalising once. */
  lemma NormalizeIdempotent(s: string)
    ensures NormalizeEmail(NormalizeEmail(s)) == NormalizeEmail(s)
  {
    NormalizeEmailIsNormalized(s);
    NormalizedIsFixed(NormalizeEmail(s));
  }

  /** A character the setters cannot strip or change survives normalisation, so the email is not blank. */
  lemma KeptCharacterNotBlank(s: string, i: nat)
    requires i < |s| && !IsWhitespace(s[i]) && LowerChar(s[i]) == s[i]
    ensures NormalizeEmail(s) != ""
  {
    assert ToLower(s)[i] == s[i];
  }

  /** The first document whose email is `email`. */
  function FirstWithEmail(users: seq<User>, email: string): (r: Option<User>)
    ensures r.Some? ==> r.value in users && r.value.email == email
    ensures r.None? ==> forall u :: u in users ==> u.email != email
  {
    if |users| == 0 then None
    else if users[0].email == email then Some(users[0])
    else FirstWithEmail(users[1..], email)
  }

  /** `User.findOne({ email })`: the query value goes through the same setters as stored emails. */
  function FindByEmail(c: Collection, email: string): (r: Result<Option<User>, DbError>)
    ensures r.Err? <==> !c.online
    ensures r.Ok? && r.value.Some? ==> r.value.value in c.users && r.value.value.email == NormalizeEmail(email)
    ensures r.Ok? && r.value.None? ==> forall u :: u in c.users ==> u.email != NormalizeEmail(email)
  {
    if !c.online then Err(Unreachable) else Ok(FirstWithEmail(c.users, NormalizeEmail(email)))
  }

  /** In a valid collection at most one document carries a given email, so `findOne` finds that one. */
  lemma FindByEmailUnique(c: Collection, email: string, u: User)
    requires Valid(c) && c.online
    requires u in c.users && u.email == NormalizeEmail(email)
    ensures FindByEmail(c, email) == Ok(Some(u))
  {
    UniqueEmailFound(c.users, NormalizeEmail(email), u);
  }

  /** Among documents with pairwise distinct emails, the first with `u`'s email is `u`. */
  lemma UniqueEmailFound(users: seq<User>, e: string, u: User)
    requires forall i, j :: 0 <= i < j < |users| ==> users[i].email != users[j].email
    requires u in users && u.email == e
    ensures FirstWithEmail(users, e) == Some(u)
  {
    var found := FirstWithEmail(users, e).value;
    var i :| 0 <= i < |users| && users[i] == u;
    var j :| 0 <= j < |users| && users[j] == found;
    assert i == j;
  }

  /**
   * `User.create({ email, password, name })`: schema validation first (a blank
   * email is refused), then the unique index (code 11000), then the insert with
   * a fresh id and both timestamps set to `now`.
   */
  function Create(c: Collection, email: string, password: Digest, name: Option<string>, now: int)
    : (r: Result<(Collection, User), DbError>)
    ensures r.Ok? ==> var (c', u) := r.value;
                      && c'.users == c.users + [u] && c'.online
                      && u == User(ObjectId(c.nextSerial), NormalizeEmail(email), password, name, now, now)
    ensures r.Ok? <==> c.online && NormalizeEmail(email) != ""
                       && forall v :: v in c.users ==> v.email != NormalizeEmail(email)
    ensures r.Err? ==> (r.error == Unreachable <==> !c.online)
    ensures r.Err? ==> (r.error == DuplicateKey <==> c.online && NormalizeEmail(email) != ""
                                                     && exists v :: v in c.users && v.email == NormalizeEmail(email))
  {
    var e := NormalizeEmail(email);
    if !c.online then Err(Unreachable)
    else if e == "" then Err(ValidationFailed)
    else if FirstWithEmail(c.users, e).Some? then Err(DuplicateKey)
    else
      var u := User(ObjectId(c.nextSerial), e, password, name, now, now);
      Ok((Collection(c.users + [u], c.nextSerial + 1, c.online), u))
  }

  /** Appending a document with a fresh id and a new normalised email keeps the invariants. */
  lemma AppendKeepsValid(c: Collection, c': Collection, u: User)
    requires Valid(c)
    requires c'.users == c.users + [u] && c'.nextSerial == c.nextSerial + 1
    requires u.id == ObjectId(c.nextSerial)
    requires u.email != "" && IsNormalized(u.email)
    requires forall v :: v in c.users ==> v.email != u.email
    ensures Valid(c')
  {
    var n := |c.users|;
    forall i, j | 0 <= i < j < |c'.users|
      ensures c'.users[i].email != c'.users[j].email
      ensures c'.users[i].id != c'.users[j].id
    {
      if j == n {
        assert c'.users[i] == c.users[i];
        assert c.users[i] in c.users;
      } else {
        assert c'.users[i] == c.users[i] && c'.users[j] == c.users[j];
      }
    }
    forall i | 0 <= i < |c'.users|
      ensures c'.users[i].id.serial < c'.nextSerial
      ensures c'.users[i].email != "" && IsNormalized(c'.users[i].email)
    {
      if i < n {
        assert c'.users[i] == c.users[i];
      }
    }
  }

  /** A successful create keeps every schema invariant: emails stay unique and normalised, ids fresh. */
  lemma CreateKeepsValid(c: Collection, email: string, password: Digest, name: Option<string>, now: int,
                         c': Collection, u: User)
    requires Valid(c)
    requires Create(c, email, password, name, now) == Ok((c', u))
    ensures Valid(c')
  {
    NormalizeEmailIsNormalized(email);
    AppendKeepsValid(c, c', u);
  }
}
