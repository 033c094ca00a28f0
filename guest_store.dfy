/** The guest-account handlers of backend/controllers/guestUserController.js
    over an in-memory `guest_users` table. Each handler becomes a method of
    `GuestTable`; a failing database call is a boolean parameter, the clock
    reading `new Date()` is the parameter `now`, the e-mail service's verdict
    is the parameter `emailSent`, and bcrypt's random salt is `salt`. */
module GuestStore {
  import opened Wrappers
  import opened Username
  import opened Calendar
  import opened Expiration
  import Text

  /** The acting administrator (`req.admin`). */
  datatype Admin = Admin(id: nat, email: string)

  /** bcrypt.hash(password, saltRounds), kept symbolic: the hash of a
      password under a cost factor and a salt. */
  datatype PasswordHash = BcryptHash(plain: string, rounds: nat, salt: nat)

  const SaltRounds: nat := 12

  /** One row of `guest_users`. */
  datatype GuestRow = GuestRow(
    id: nat, username: string, passwordHash: PasswordHash, expiresAt: DateTime,
    createdBy: nat, fullName: string, email: string, phoneNumber: string,
    createdAt: DateTime, isActive: bool)

  /** The body of POST /guest-users. `fullName`, `email` and `phoneNumber`
      are "" when missing or falsy; a missing `baseUsername` is the text
      "undefined", since the template literal prints it so and nothing
      checks it; a `password` that is absent is `None`; `expiration` is
      `None` when it is missing or not an object. */
  datatype CreateRequest = CreateRequest(
    baseUsername: string, password: Option<string>, expiration: Option<Duration>,
    fullName: string, email: string, phoneNumber: string)

  /** The body of PUT /guest-users/:id. `isActive` is `None` unless the
      value is a boolean; `expiresAt` is `None` when falsy and otherwise the
      date it denotes; `expiration` is `None` when falsy (a truthy
      non-object reads every unit as absent). */
  datatype UpdateRequest = UpdateRequest(
    isActive: Option<bool>, expiresAt: Option<DateTime>, expiration: Option<Duration>)

  /** A row as the create and list handlers select it: every column but the
      password hash and the owner. */
  datatype GuestView = GuestView(
    id: nat, username: string, fullName: string, email: string, phoneNumber: string,
    createdAt: DateTime, expiresAt: DateTime, isActive: bool)

  /** A row as the update handler re-selects it: id, name, times and flag. */
  datatype UpdatedView = UpdatedView(
    id: nat, username: string, createdAt: DateTime, expiresAt: DateTime, isActive: bool)

  function View(row: GuestRow): GuestView {
    GuestView(row.id, row.username, row.fullName, row.email, row.phoneNumber,
              row.createdAt, row.expiresAt, row.isActive)
  }

  function ViewAfterUpdate(row: GuestRow): UpdatedView {
    UpdatedView(row.id, row.username, row.createdAt, row.expiresAt, row.isActive)
  }

  /** The selected columns of each row, in the same order. */
  function Views(s: seq<GuestRow>): (vs: seq<GuestView>)
    ensures |vs| == |s| && forall i :: 0 <= i < |s| ==> vs[i] == View(s[i])
  {
    seq(|s|, i requires 0 <= i < |s| => View(s[i]))
  }

  /** What a handler sends back. */
  datatype Outcome =
    | Rejected(status: nat, message: string)
    | Created(user: GuestView, plainPassword: string, emailSent: bool, emailMessage: string)
    | Listed(users: seq<GuestView>)
    | Updated(updated: UpdatedView)
    | Deleted
    | Toggled(isActive: bool)
  {
    /** The HTTP status code of the response. */
    function Status(): nat {
      match this
      case Rejected(status, _) => status
      case Created(_, _, _, _) => 201
      case _ => 200
    }
  }

  const MissingFieldsMessage := "Full name, email, and phone number are required"
  const DatabaseErrorMessage := "Database error occurred"
  const UsernameExistsMessage := "Username already exists"
  const ExpirationRequiredMessage := "Expiration object is required."
  const CreateFailedMessage := "Failed to create guest user"
  const InternalErrorMessage := "Internal server error"
  const NotFoundMessage := "Guest user not found"
  const NoFieldsMessage := "No valid fields to update"
  const UpdateFailedMessage := "Failed to update guest user"
  const DeleteFailedMessage := "Failed to delete guest user"
  const ToggleFailedMessage := "Failed to update user status"

  function EmailMessage(sent: bool): string {
    if sent then "Credentials sent to user email" else "Failed to send email"
  }

  /** The usernames present in the table. */
  function Usernames(rows: map<nat, GuestRow>): set<string> {
    set id | id in rows :: rows[id].username
  }

  /** `id` names a row that `adminId` created. */
  predicate Owned(rows: map<nat, GuestRow>, adminId: nat, id: nat) {
    id in rows && rows[id].createdBy == adminId
  }

  // ---------------------------------------------------------------- create

  /** fullName, email and phoneNumber are all truthy. */
  predicate Filled(req: CreateRequest) {
    req.fullName != "" && req.email != "" && req.phoneNumber != ""
  }

  /** Every check of createGuestUser passes, stated without the order in
      which they are made. */
  predicate CreateAllowed(adminEmail: string, req: CreateRequest, taken: set<string>,
                          lookupFails: bool, insertFails: bool) {
    && Filled(req) && '@' in adminEmail && !lookupFails
    && GenerateGuestUsername(adminEmail, req.baseUsername).value !in taken
    && req.password.Some? && req.expiration.Some?
    && (forall u: Unit :: IsNonNegativeInteger(req.expiration.value.Get(u)))
    && (exists u: Unit :: IsPositive(req.expiration.value.Get(u)))
    && !insertFails
  }

  /** The checks of createGuestUser up to the username lookup pass: the
      fields are present, the name can be derived, the lookup works and the
      name is free. */
  predicate NameAvailable(adminEmail: string, req: CreateRequest, taken: set<string>, lookupFails: bool) {
    && Filled(req) && '@' in adminEmail && !lookupFails
    && GenerateGuestUsername(adminEmail, req.baseUsername).value !in taken
  }

  /** The response createGuestUser sends before it writes anything, or
      `None` when it goes on to insert. `taken` holds the usernames already
      in the table. The clauses after the first three give the answer of
      each check, in the order the handler makes them. */
  function CreateRejection(adminEmail: string, req: CreateRequest, taken: set<string>,
                           lookupFails: bool, insertFails: bool): (r: Option<Outcome>)
    ensures r.Some? ==> r.value.Rejected? && r.value.Status() in {400, 409, 500}
    ensures r.None? <==> CreateAllowed(adminEmail, req, taken, lookupFails, insertFails)
    ensures r.None? ==> Readable(req.expiration.value)
    ensures !Filled(req) ==> r == Some(Rejected(400, MissingFieldsMessage))
    ensures Filled(req) && '@' !in adminEmail ==> r == Some(Rejected(500, InternalErrorMessage))
    ensures Filled(req) && '@' in adminEmail && lookupFails ==> r == Some(Rejected(500, DatabaseErrorMessage))
    ensures r == Some(Rejected(409, UsernameExistsMessage)) <==>
      && Filled(req) && '@' in adminEmail && !lookupFails
      && GenerateGuestUsername(adminEmail, req.baseUsername).value in taken
    ensures NameAvailable(adminEmail, req, taken, lookupFails) && req.password.None? ==>
      r == Some(Rejected(500, InternalErrorMessage))
    ensures NameAvailable(adminEmail, req, taken, lookupFails) && req.password.Some? && req.expiration.None? ==>
      r == Some(Rejected(400, ExpirationRequiredMessage))
    ensures NameAvailable(adminEmail, req, taken, lookupFails) && req.password.Some? && req.expiration.Some?
            && CheckDuration(req.expiration.value) != Accepted ==>
      r == Some(Rejected(400, RejectionMessage(CheckDuration(req.expiration.value))))
    ensures NameAvailable(adminEmail, req, taken, lookupFails) && req.password.Some? && req.expiration.Some?
            && CheckDuration(req.expiration.value) == Accepted && insertFails ==>
      r == Some(Rejected(500, CreateFailedMessage))
  {
    if !Filled(req) then Some(Rejected(400, MissingFieldsMessage))
    else match GenerateGuestUsername(adminEmail, req.baseUsername)
      case None => Some(Rejected(500, InternalErrorMessage))
      case Some(username) =>
        if lookupFails then Some(Rejected(500, DatabaseErrorMessage))
        else if username in taken then Some(Rejected(409, UsernameExistsMessage))
        else if req.password.None? then Some(Rejected(500, InternalErrorMessage))
        else if req.expiration.None? then Some(Rejected(400, ExpirationRequiredMessage))
        else
          var verdict := CheckDuration(req.expiration.value);
          CheckAcceptsIff(req.expiration.value);
          if verdict != Accepted then Some(Rejected(400, RejectionMessage(verdict)))
          else if insertFails then Some(Rejected(500, CreateFailedMessage))
          else None
  }

  /** The row createGuestUser inserts: named after the base name and the
      admin's domain prefix, owned by the admin, active, created now and
      expiring where the duration leads from now. */
  function NewGuest(id: nat, admin: Admin, req: CreateRequest, now: DateTime, salt: nat): (r: GuestRow)
    requires '@' in admin.email && req.password.Some? && req.expiration.Some?
    requires Readable(req.expiration.value) && Normalized(now)
    ensures exists p :: r.username == req.baseUsername + "_" + p && IsDomainPrefix(admin.email, p)
    ensures r.id == id && r.createdBy == admin.id && r.isActive && r.createdAt == now
    ensures r.passwordHash.plain == req.password.value && r.passwordHash.rounds == SaltRounds
    ensures (r.fullName, r.email, r.phoneNumber) == (req.fullName, req.email, req.phoneNumber)
    ensures r.expiresAt == ExpirationFrom(now, req.expiration.value) && Normalized(r.expiresAt)
    ensures CheckDuration(req.expiration.value) == Accepted ==> TimeValue(now) < TimeValue(r.expiresAt)
  {
    var p := Text.Split(Text.Split(admin.email, '@')[1], '.')[0];
    UsernameIsBaseAndDomainPrefix(admin.email, req.baseUsername, p);
    var row := GuestRow(id, GenerateGuestUsername(admin.email, req.baseUsername).value,
                        BcryptHash(req.password.value, SaltRounds, salt),
                        ExpirationFrom(now, req.expiration.value), admin.id,
                        req.fullName, req.email, req.phoneNumber, now, true);
    if CheckDuration(req.expiration.value) == Accepted then
      AcceptedExpirationIsLater(now, req.expiration.value);
      row
    else row
  }

  // ---------------------------------------------------------------- update

  /** One entry of the `updates` list the update handler builds. */
  datatype Assignment = SetActive(active: bool) | SetExpiresAt(at: DateTime)

  function Assign(row: GuestRow, a: Assignment): GuestRow {
    match a
    case SetActive(active) => row.(isActive := active)
    case SetExpiresAt(at) => row.(expiresAt := at)
  }

  /** UPDATE ... SET with the assignments in order. */
  function AssignAll(row: GuestRow, updates: seq<Assignment>): GuestRow
    decreases |updates|
  {
    if |updates| == 0 then row else AssignAll(Assign(row, updates[0]), updates[1..])
  }

  /** The expiry an update writes, if any: a duration wins over an explicit
      `expiresAt` and is counted from `now`, not from the old expiry;
      without a duration the explicit `expiresAt` is used. */
  function NewExpiry(req: UpdateRequest, now: DateTime): (r: Option<DateTime>)
    requires Normalized(now) && (req.expiration.Some? ==> Readable(req.expiration.value))
    ensures r.None? <==> req.expiration.None? && req.expiresAt.None?
    ensures req.expiration.Some? ==> r == Some(ExpirationFrom(now, req.expiration.value))
    ensures req.expiration.None? ==> r == req.expiresAt
  {
    if req.expiration.Some? then Some(ExpirationFrom(now, req.expiration.value))
    else req.expiresAt
  }

  /** An accepted duration in an update moves the expiry to a moment after
      `now`, whatever the old expiry and any explicit `expiresAt` were. */
  lemma {:induction false} UpdatedExpiryIsLater(req: UpdateRequest, now: DateTime)
    requires Normalized(now) && req.expiration.Some? && Readable(req.expiration.value)
    requires CheckDuration(req.expiration.value) == Accepted
    ensures NewExpiry(req, now).Some? && TimeValue(now) < TimeValue(NewExpiry(req, now).value)
  {
    AcceptedExpirationIsLater(now, req.expiration.value);
  }

  /** The row after a successful update: the supplied fields change and no
      other. */
  function Patched(row: GuestRow, req: UpdateRequest, now: DateTime): (r: GuestRow)
    requires Normalized(now) && (req.expiration.Some? ==> Readable(req.expiration.value))
    ensures r.(isActive := row.isActive, expiresAt := row.expiresAt) == row
    ensures r.isActive == if req.isActive.Some? then req.isActive.value else row.isActive
    ensures r.expiresAt == if NewExpiry(req, now).Some? then NewExpiry(req, now).value else row.expiresAt
  {
    var active := if req.isActive.Some? then req.isActive.value else row.isActive;
    var expiry := NewExpiry(req, now);
    row.(isActive := active, expiresAt := if expiry.Some? then expiry.value else row.expiresAt)
  }

  /** The response updateGuestUser sends before it writes anything, or
      `None` when it goes on to update the row. */
  function UpdateRejection(rows: map<nat, GuestRow>, adminId: nat, id: nat, req: UpdateRequest,
                           lookupFails: bool, updateFails: bool): (r: Option<Outcome>)
    ensures r.Some? ==> r.value.Rejected? && r.value.Status() in {400, 404, 500}
    ensures r.None? ==> Owned(rows, adminId, id)
    ensures r.None? ==> req.expiration.Some? ==> Readable(req.expiration.value)
    ensures lookupFails ==> r == Some(Rejected(500, DatabaseErrorMessage))
    ensures !lookupFails && !Owned(rows, adminId, id) ==> r == Some(Rejected(404, NotFoundMessage))
    ensures !lookupFails && Owned(rows, adminId, id) && req.expiration.Some?
            && CheckDuration(req.expiration.value) != Accepted ==>
      r == Some(Rejected(400, RejectionMessage(CheckDuration(req.expiration.value))))
    ensures !lookupFails && Owned(rows, adminId, id) && updateFails
            && (req.isActive.Some? || req.expiration.Some? || req.expiresAt.Some?)
            && (req.expiration.Some? ==> CheckDuration(req.expiration.value) == Accepted) ==>
      r == Some(Rejected(500, UpdateFailedMessage))
    ensures r == Some(Rejected(400, NoFieldsMessage)) <==>
      && !lookupFails && Owned(rows, adminId, id)
      && req.isActive.None? && req.expiration.None? && req.expiresAt.None?
    ensures r.None? <==>
      && !lookupFails && Owned(rows, adminId, id) && !updateFails
      && (req.isActive.Some? || req.expiration.Some? || req.expiresAt.Some?)
      && (req.expiration.Some? ==> CheckDuration(req.expiration.value) == Accepted)
  {
    if lookupFails then Some(Rejected(500, DatabaseErrorMessage))
    else if !Owned(rows, adminId, id) then Some(Rejected(404, NotFoundMessage))
    else if req.expiration.Some? && CheckDuration(req.expiration.value) != Accepted then
      Some(Rejected(400, RejectionMessage(CheckDuration(req.expiration.value))))
    else if req.isActive.None? && req.expiration.None? && req.expiresAt.None? then
      Some(Rejected(400, NoFieldsMessage))
    else if updateFails then Some(Rejected(500, UpdateFailedMessage))
    else
      (if req.expiration.Some? then CheckAcceptsIff(req.expiration.value); None else None)
  }

  /** Create and update reject a duration alike: once each handler's
      earlier checks pass, the same invalid duration draws the same 400
      naming the same unit. */
  lemma {:induction false} DurationRejectedAlike(adminEmail: string, req: CreateRequest, taken: set<string>,
                                                 lookupFails: bool, insertFails: bool,
                                                 rows: map<nat, GuestRow>, adminId: nat, id: nat,
                                                 update: UpdateRequest, updateFails: bool)
    requires NameAvailable(adminEmail, req, taken, lookupFails) && req.password.Some?
    requires Owned(rows, adminId, id) && update.expiration == req.expiration && req.expiration.Some?
    requires CheckDuration(req.expiration.value) != Accepted
    ensures CreateRejection(adminEmail, req, taken, lookupFails, insertFails)
         == UpdateRejection(rows, adminId, id, update, false, updateFails)
    ensures CreateRejection(adminEmail, req, taken, lookupFails, insertFails).value.Status() == 400
  {
  }

  // ------------------------------------------------------------------ list

  /** Each row carries a normalised creation time. */
  predicate AllStamped(s: seq<GuestRow>) {
    forall i :: 0 <= i < |s| ==> Normalized(s[i].createdAt)
  }

  /** ORDER BY created_at DESC. */
  predicate NewestFirst(s: seq<GuestRow>)
    requires AllStamped(s)
  {
    forall i, j :: 0 <= i < j < |s| ==> TimeValue(s[j].createdAt) <= TimeValue(s[i].createdAt)
  }

  /** `r` is a row of the table that `adminId` created. */
  predicate OwnedRow(rows: map<nat, GuestRow>, adminId: nat, r: GuestRow) {
    r.id in rows && rows[r.id] == r && r.createdBy == adminId
  }

  /** Each key of the table is its row's id. */
  predicate Keyed(rows: map<nat, GuestRow>) {
    forall id :: id in rows ==> rows[id].id == id
  }

  /** The rows with an id below `n` that `adminId` created, in id order:
      each such row exactly once, nothing else. */
  function OwnedBelow(rows: map<nat, GuestRow>, adminId: nat, n: nat): (s: seq<GuestRow>)
    requires Keyed(rows)
    ensures forall r :: multiset(s)[r] == if r.id < n && OwnedRow(rows, adminId, r) then 1 else 0
  {
    if n == 0 then []
    else
      var prev := OwnedBelow(rows, adminId, n - 1);
      if n - 1 in rows && rows[n - 1].createdBy == adminId then prev + [rows[n - 1]] else prev
  }

  /** Places `r` before the first row not newer than it. */
  function InsertByCreation(r: GuestRow, s: seq<GuestRow>): (res: seq<GuestRow>)
    requires Normalized(r.createdAt) && AllStamped(s) && NewestFirst(s)
    ensures multiset(res) == multiset(s) + multiset{r}
    ensures AllStamped(res) && NewestFirst(res)
    ensures |res| == |s| + 1 && (res[0] == r || (|s| > 0 && res[0] == s[0]))
  {
    if |s| == 0 || TimeValue(s[0].createdAt) <= TimeValue(r.createdAt) then
      PrependNewest(r, s);
      [r] + s
    else
      var tail := s[1..];
      TailNewestFirst(s);
      var rest := InsertByCreation(r, tail);
      assert s == [s[0]] + tail;
      PrependNewest(s[0], rest);
      [s[0]] + rest
  }

  /** Dropping the head of a newest-first list leaves a newest-first list,
      whose rows are no newer than that head. */
  lemma TailNewestFirst(s: seq<GuestRow>)
    requires AllStamped(s) && NewestFirst(s) && |s| > 0
    ensures AllStamped(s[1..]) && NewestFirst(s[1..])
    ensures forall k :: 0 <= k < |s[1..]| ==> TimeValue(s[1..][k].createdAt) <= TimeValue(s[0].createdAt)
  {
    var tail := s[1..];
    forall i, j | 0 <= i < j < |tail|
      ensures TimeValue(tail[j].createdAt) <= TimeValue(tail[i].createdAt)
    {
      assert tail[i] == s[i + 1] && tail[j] == s[j + 1];
    }
    forall k | 0 <= k < |tail|
      ensures TimeValue(tail[k].createdAt) <= TimeValue(s[0].createdAt)
    {
      assert tail[k] == s[k + 1];
    }
  }

  /** A row no older than the head of a newest-first list can go in front. */
  lemma PrependNewest(r: GuestRow, s: seq<GuestRow>)
    requires Normalized(r.createdAt) && AllStamped(s) && NewestFirst(s)
    requires |s| == 0 || TimeValue(s[0].createdAt) <= TimeValue(r.createdAt)
    ensures AllStamped([r] + s) && NewestFirst([r] + s)
  {
    var t := [r] + s;
    forall i, j | 0 <= i < j < |t| ensures TimeValue(t[j].createdAt) <= TimeValue(t[i].createdAt) {
      if i == 0 {
        assert t[j] == s[j - 1];
      } else {
        assert t[i] == s[i - 1] && t[j] == s[j - 1];
      }
    }
  }

  /** Sorts rows newest first (insertion sort). */
  function SortNewestFirst(s: seq<GuestRow>): (res: seq<GuestRow>)
    requires AllStamped(s)
    ensures multiset(res) == multiset(s)
    ensures AllStamped(res) && NewestFirst(res)
  {
    if |s| == 0 then []
    else
      assert s == [s[0]] + s[1..];
      InsertByCreation(s[0], SortNewestFirst(s[1..]))
  }

  // ----------------------------------------------------------------- table

  /** Ids are keys and lie below `next`; timestamps are normalised;
      usernames are unique. */
  ghost predicate TableInvariant(rows: map<nat, GuestRow>, next: nat) {
    && Keyed(rows)
    && (forall id :: id in rows ==>
          id < next && Normalized(rows[id].createdAt) && Normalized(rows[id].expiresAt))
    && (forall a, b :: a in rows && b in rows && rows[a].username == rows[b].username ==> a == b)
  }

  /** Inserting a row with a fresh username under the next id keeps the
      invariant once the counter moves on. */
  lemma InsertKeepsInvariant(rows: map<nat, GuestRow>, next: nat, row: GuestRow)
    requires TableInvariant(rows, next) && row.id == next && row.username !in Usernames(rows)
    requires Normalized(row.createdAt) && Normalized(row.expiresAt)
    ensures TableInvariant(rows[next := row], next + 1)
  {
    forall a | a in rows ensures rows[a].username != row.username {
      assert rows[a].username in Usernames(rows);
    }
  }

  /** Rewriting a row's mutable fields keeps the invariant. */
  lemma ReplaceKeepsInvariant(rows: map<nat, GuestRow>, next: nat, id: nat, row: GuestRow)
    requires TableInvariant(rows, next) && id in rows
    requires row.id == id && row.username == rows[id].username
    requires row.createdAt == rows[id].createdAt && Normalized(row.expiresAt)
    ensures TableInvariant(rows[id := row], next)
  {
    var updated := rows[id := row];
    forall a, b | a in updated && b in updated && updated[a].username == updated[b].username
      ensures a == b
    {
      assert updated[a].username == rows[a].username && updated[b].username == rows[b].username;
    }
  }


  /** The `guest_users` table: rows keyed by their auto-increment id, and
      the id the next insert receives. */
  class GuestTable {
    var rows: map<nat, GuestRow>
    var nextId: nat

    /** Ids are keys and lie below `nextId`; timestamps are normalised;
        usernames are unique. */
    ghost predicate Valid()
      reads this
    {
      TableInvariant(rows, nextId)
    }

    constructor ()
      ensures Valid() && rows == map[] && nextId == 1
    {
      rows := map[];
      nextId := 1;
    }

    /** createGuestUser: checks in the source's order, then inserts the row
        and reports whether the credentials e-mail went out. */
    method CreateGuestUser(admin: Admin, req: CreateRequest, now: DateTime, salt: nat,
                           lookupFails: bool, insertFails: bool, emailSent: bool)
      returns (o: Outcome)
      requires Valid() && Normalized(now)
      modifies this
      ensures Valid()
      ensures var rejection := CreateRejection(admin.email, req, Usernames(old(rows)), lookupFails, insertFails);
        if rejection.Some? then
          o == rejection.value && rows == old(rows) && nextId == old(nextId)
        else
          && o == Created(View(NewGuest(old(nextId), admin, req, now, salt)), req.password.value,
                          emailSent, EmailMessage(emailSent))
          && rows == old(rows)[old(nextId) := NewGuest(old(nextId), admin, req, now, salt)]
          && nextId == old(nextId) + 1
      ensures o.Created? ==> TimeValue(now) < TimeValue(o.user.expiresAt)
    {
      if req.fullName == "" || req.email == "" || req.phoneNumber == "" {
        return Rejected(400, MissingFieldsMessage);
      }
      var username := GenerateGuestUsername(admin.email, req.baseUsername);
      if username.None? {
        return Rejected(500, InternalErrorMessage);
      }
      if lookupFails {
        return Rejected(500, DatabaseErrorMessage);
      }
      if username.value in Usernames(rows) {
        return Rejected(409, UsernameExistsMessage);
      }
      if req.password.None? {
        return Rejected(500, InternalErrorMessage);
      }
      if req.expiration.None? {
        return Rejected(400, ExpirationRequiredMessage);
      }
      var verdict := ValidateDuration(req.expiration.value);
      if verdict != Accepted {
        return Rejected(400, RejectionMessage(verdict));
      }
      o := InsertGuest(admin, req, now, salt, insertFails, emailSent);
    }

    /** The tail of createGuestUser once every check has passed: the expiry
        is computed from the current time and the row inserted. */
    method InsertGuest(admin: Admin, req: CreateRequest, now: DateTime, salt: nat,
                       insertFails: bool, emailSent: bool) returns (o: Outcome)
      requires Valid() && Normalized(now) && '@' in admin.email
      requires GenerateGuestUsername(admin.email, req.baseUsername).value !in Usernames(rows)
      requires req.password.Some? && req.expiration.Some?
      requires CheckDuration(req.expiration.value) == Accepted
      modifies this
      ensures Valid()
      ensures insertFails ==>
        o == Rejected(500, CreateFailedMessage) && rows == old(rows) && nextId == old(nextId)
      ensures !insertFails ==>
        && o == Created(View(NewGuest(old(nextId), admin, req, now, salt)), req.password.value,
                        emailSent, EmailMessage(emailSent))
        && rows == old(rows)[old(nextId) := NewGuest(old(nextId), admin, req, now, salt)]
        && nextId == old(nextId) + 1
        && TimeValue(now) < TimeValue(o.user.expiresAt)
    {
      CheckAcceptsIff(req.expiration.value);
      var clock := new Date.At(now);
      var expiresAt := AddExpiration(clock, req.expiration.value);
      AcceptedExpirationIsLater(now, req.expiration.value);
      if insertFails {
        return Rejected(500, CreateFailedMessage);
      }
      var user := GuestRow(nextId, GenerateGuestUsername(admin.email, req.baseUsername).value,
                           BcryptHash(req.password.value, SaltRounds, salt), expiresAt.local,
                           admin.id, req.fullName, req.email, req.phoneNumber, now, true);
      InsertKeepsInvariant(rows, nextId, user);
      rows := rows[nextId := user];
      nextId := nextId + 1;
      o := Created(View(user), req.password.value, emailSent, EmailMessage(emailSent));
    }

    /** getGuestUsers: the acting admin's rows, newest first. */
    method GetGuestUsers(admin: Admin, queryFails: bool) returns (o: Outcome)
      requires Valid()
      ensures queryFails ==> o == Rejected(500, DatabaseErrorMessage)
      ensures !queryFails ==>
        && o.Listed?
        && exists s :: && o.users == Views(s) && AllStamped(s) && NewestFirst(s)
                       && forall r :: multiset(s)[r] == if OwnedRow(rows, admin.id, r) then 1 else 0
    {
      if queryFails {
        return Rejected(500, DatabaseErrorMessage);
      }
      var owned := OwnedBelow(rows, admin.id, nextId);
      assert AllStamped(owned) by {
        forall i | 0 <= i < |owned| ensures Normalized(owned[i].createdAt) {
          assert multiset(owned)[owned[i]] > 0;
        }
      }
      var sorted := SortNewestFirst(owned);
      o := Listed(Views(sorted));
    }

    /** updateGuestUser: ownership check, the `updates` list built from the
        request, then one UPDATE of the row. */
    method UpdateGuestUser(admin: Admin, id: nat, req: UpdateRequest, now: DateTime,
                           lookupFails: bool, updateFails: bool) returns (o: Outcome)
      requires Valid() && Normalized(now)
      requires req.expiresAt.Some? ==> Normalized(req.expiresAt.value)
      modifies this
      ensures Valid() && nextId == old(nextId)
      ensures var rejection := UpdateRejection(old(rows), admin.id, id, req, lookupFails, updateFails);
        if rejection.Some? then
          o == rejection.value && rows == old(rows)
        else
          && rows == old(rows)[id := Patched(old(rows)[id], req, now)]
          && o == Updated(ViewAfterUpdate(rows[id]))
    {
      if lookupFails {
        return Rejected(500, DatabaseErrorMessage);
      }
      if !(id in rows && rows[id].createdBy == admin.id) {
        return Rejected(404, NotFoundMessage);
      }
      var updates: seq<Assignment> := [];
      if req.isActive.Some? {
        updates := updates + [SetActive(req.isActive.value)];
      }
      var verdict, newExpiresAt := RequestedExpiry(req, now);
      if verdict != Accepted {
        return Rejected(400, RejectionMessage(verdict));
      }
      if newExpiresAt.Some? {
        updates := updates + [SetExpiresAt(newExpiresAt.value)];
      }
      if |updates| == 0 {
        return Rejected(400, NoFieldsMessage);
      }
      if updateFails {
        return Rejected(500, UpdateFailedMessage);
      }
      var row := AssignAll(rows[id], updates);
      assert row == Patched(rows[id], req, now) by {
        assert updates == (if req.isActive.Some? then [SetActive(req.isActive.value)] else [])
                        + (if newExpiresAt.Some? then [SetExpiresAt(newExpiresAt.value)] else []);
        AssignActiveThenExpiry(rows[id], req.isActive, newExpiresAt);
      }
      ReplaceKeepsInvariant(rows, nextId, id, row);
      rows := rows[id := row];
      o := Updated(ViewAfterUpdate(row));
    }

    /** deleteGuestUser: ownership check, then removal of that row alone. */
    method DeleteGuestUser(admin: Admin, id: nat, lookupFails: bool, deleteFails: bool)
      returns (o: Outcome)
      requires Valid()
      modifies this
      ensures Valid() && nextId == old(nextId)
      ensures lookupFails ==> o == Rejected(500, DatabaseErrorMessage) && rows == old(rows)
      ensures !lookupFails && !Owned(old(rows), admin.id, id) ==>
        o == Rejected(404, NotFoundMessage) && rows == old(rows)
      ensures !lookupFails && Owned(old(rows), admin.id, id) && deleteFails ==>
        o == Rejected(500, DeleteFailedMessage) && rows == old(rows)
      ensures !lookupFails && Owned(old(rows), admin.id, id) && !deleteFails ==>
        o == Deleted && rows == old(rows) - {id}
    {
      if lookupFails {
        return Rejected(500, DatabaseErrorMessage);
      }
      if !(id in rows && rows[id].createdBy == admin.id) {
        return Rejected(404, NotFoundMessage);
      }
      if deleteFails {
        return Rejected(500, DeleteFailedMessage);
      }
      rows := rows - {id};
      o := Deleted;
    }

    /** toggleGuestUserStatus as written: after the status query, building
        the mail options reads `userData.email`, and no `userData` is in
        scope. The ReferenceError lands in the catch block, so every call
        answers 500 and nothing is written. */
    method ToggleGuestUserStatus(admin: Admin, id: nat, lookupFails: bool) returns (o: Outcome)
      requires Valid()
      ensures o == Rejected(500, InternalErrorMessage)
    {
      o := Rejected(500, InternalErrorMessage);
    }

    /** toggleGuestUserStatus with the stray mail options removed: the
        ownership check, then the stored status flipped. */
    method ToggleGuestUserStatusIntended(admin: Admin, id: nat, lookupFails: bool, updateFails: bool)
      returns (o: Outcome)
      requires Valid()
      modifies this
      ensures Valid() && nextId == old(nextId)
      ensures lookupFails ==> o == Rejected(500, DatabaseErrorMessage) && rows == old(rows)
      ensures !lookupFails && !Owned(old(rows), admin.id, id) ==>
        o == Rejected(404, NotFoundMessage) && rows == old(rows)
      ensures !lookupFails && Owned(old(rows), admin.id, id) && updateFails ==>
        o == Rejected(500, ToggleFailedMessage) && rows == old(rows)
      ensures !lookupFails && Owned(old(rows), admin.id, id) && !updateFails ==>
        && o == Toggled(!old(rows)[id].isActive)
        && rows == old(rows)[id := old(rows)[id].(isActive := !old(rows)[id].isActive)]
    {
      if lookupFails {
        return Rejected(500, DatabaseErrorMessage);
      }
      if !(id in rows && rows[id].createdBy == admin.id) {
        return Rejected(404, NotFoundMessage);
      }
      var newStatus := !rows[id].isActive;
      if updateFails {
        return Rejected(500, ToggleFailedMessage);
      }
      ReplaceKeepsInvariant(rows, nextId, id, rows[id].(isActive := newStatus));
      rows := rows[id := rows[id].(isActive := newStatus)];
      o := Toggled(newStatus);
    }
  }

  /** The expiry step of updateGuestUser: a given duration is validated and
      applied to the current time; otherwise an explicit `expiresAt` is
      taken as it is. The verdict is `Accepted` when no duration is given. */
  method RequestedExpiry(req: UpdateRequest, now: DateTime) returns (verdict: Verdict, at: Option<DateTime>)
    requires Normalized(now) && (req.expiresAt.Some? ==> Normalized(req.expiresAt.value))
    ensures verdict == if req.expiration.Some? then CheckDuration(req.expiration.value) else Accepted
    ensures verdict == Accepted ==>
      && (req.expiration.Some? ==> Readable(req.expiration.value))
      && at == NewExpiry(req, now) && (at.Some? ==> Normalized(at.value))
  {
    at := None;
    verdict := Accepted;
    if req.expiration.Some? {
      verdict := ValidateDuration(req.expiration.value);
      if verdict != Accepted {
        return;
      }
      CheckAcceptsIff(req.expiration.value);
      var clock := new Date.At(now);
      var d := AddExpiration(clock, req.expiration.value);
      at := Some(d.local);
    } else if req.expiresAt.Some? {
      at := req.expiresAt;
    }
  }

  /** The assignments the update handler pushes, applied in order, give
      the patched row. */
  lemma AssignActiveThenExpiry(row: GuestRow, active: Option<bool>, expiry: Option<DateTime>)
    ensures var updates := (if active.Some? then [SetActive(active.value)] else [])
                         + (if expiry.Some? then [SetExpiresAt(expiry.value)] else []);
      AssignAll(row, updates) ==
        row.(isActive := if active.Some? then active.value else row.isActive,
             expiresAt := if expiry.Some? then expiry.value else row.expiresAt)
  {
    var first := if active.Some? then [SetActive(active.value)] else [];
    var second := if expiry.Some? then [SetExpiresAt(expiry.value)] else [];
    var mid := AssignAll(row, first);
    if active.Some? {
      AssignOne(row, SetActive(active.value));
    }
    if expiry.Some? {
      AssignOne(mid, SetExpiresAt(expiry.value));
    }
    AssignAllAppend(row, first, second);
  }

  lemma AssignOne(row: GuestRow, a: Assignment)
    ensures AssignAll(row, [a]) == Assign(row, a)
  {
    assert [a][1..] == [];
  }

  /** Assigning two lists one after the other is assigning their
      concatenation. */
  lemma {:induction false} AssignAllAppend(row: GuestRow, a: seq<Assignment>, b: seq<Assignment>)
    ensures AssignAll(row, a + b) == AssignAll(AssignAll(row, a), b)
    decreases |a|
  {
    if |a| > 0 {
      assert (a + b)[1..] == a[1..] + b;
      AssignAllAppend(Assign(row, a[0]), a[1..], b);
    } else {
      assert a + b == b;
    }
  }
}
