/** The employee REST routes (routes/employees.js): the bearer-token check
    that runs before every handler, the per-route role and ownership
    decisions, the field-by-field PUT patch and DELETE. The document store
    is a map from document id to record; a verified token is its decoded
    claims. */
module EmployeeRoutes {
  import opened Wrappers
  import opened EmployeeModel
  import opened Http

  /** The claims of a verified token that the routes read. Employee tokens
      carry an employeeId and an email; the admin token carries its role and
      a username, which no route here reads. */
  datatype Claims = Claims(role: Option<string>, email: Option<string>, employeeId: Option<string>)

  const NoToken := HttpError(401, "No token, authorization denied")
  const BadToken := HttpError(401, "Token is not valid")
  const AccessDenied := HttpError(403, "Access denied")
  const NotFound := HttpError(404, "Employee not found")

  // ----- the auth middleware -----

  const BearerPrefix := "Bearer "

  /** `header.replace('Bearer ', '')`: a string pattern removes only its first occurrence. */
  function StripBearer(header: string): (token: string)
    ensures |token| == |header| || |token| == |header| - |BearerPrefix|
    ensures |token| == |header| ==> token == header
    decreases |header|
  {
    if |header| < |BearerPrefix| then header
    else if header[..|BearerPrefix|] == BearerPrefix then header[|BearerPrefix|..]
    else [header[0]] + StripBearer(header[1..])
  }

  /** A well-formed header yields the token after the prefix. */
  lemma StripBearerPrefixed(token: string)
    ensures StripBearer(BearerPrefix + token) == token
  {
    assert (BearerPrefix + token)[..|BearerPrefix|] == BearerPrefix;
    assert (BearerPrefix + token)[|BearerPrefix|..] == token;
  }

  /** The prefix occurs in `header` at position `i`. */
  predicate BearerAt(header: string, i: int)
  {
    0 <= i && i + |BearerPrefix| <= |header| && header[i..i + |BearerPrefix|] == BearerPrefix
  }

  /** A header without the prefix anywhere in it is taken as the token itself. */
  lemma {:induction false} StripBearerAbsent(header: string)
    requires forall i :: !BearerAt(header, i)
    ensures StripBearer(header) == header
  {
    if |header| >= |BearerPrefix| {
      assert !BearerAt(header, 0);
      assert header[0..|BearerPrefix|] == header[..|BearerPrefix|];
      forall i
        ensures !BearerAt(header[1..], i)
      {
        if 0 <= i && i + |BearerPrefix| <= |header[1..]| {
          assert header[1..][i..i + |BearerPrefix|] == header[i + 1..i + 1 + |BearerPrefix|];
          assert !BearerAt(header, i + 1);
        }
      }
      StripBearerAbsent(header[1..]);
    }
  }

  /** The prefix occurs at `i` and nowhere before it. */
  predicate FirstBearerAt(header: string, i: int)
  {
    BearerAt(header, i) && forall j :: 0 <= j < i ==> !BearerAt(header, j)
  }

  /** The occurrences of the prefix in `header[1..]` are those of `header`, one place earlier. */
  lemma BearerAtTail(header: string, i: int)
    requires |header| >= 1 && 0 <= i
    ensures BearerAt(header, i + 1) <==> BearerAt(header[1..], i)
  {
    if i + 1 + |BearerPrefix| <= |header| {
      assert header[1..][i..i + |BearerPrefix|] == header[i + 1..i + 1 + |BearerPrefix|];
    }
  }

  /** When `replace` shortens the header, it has cut out the first occurrence
      of the prefix, wherever in the header that is ("Basic Bearer xyz" gives
      "Basic xyz"). */
  lemma {:induction false} StripBearerFirst(header: string)
    requires |StripBearer(header)| == |header| - |BearerPrefix|
    ensures exists i :: FirstBearerAt(header, i) && StripBearer(header) == header[..i] + header[i + |BearerPrefix|..]
    decreases |header|
  {
    if header[..|BearerPrefix|] == BearerPrefix {
      assert FirstBearerAt(header, 0) by {
        assert header[0..|BearerPrefix|] == header[..|BearerPrefix|];
      }
      assert header[..0] + header[|BearerPrefix|..] == header[|BearerPrefix|..];
    } else {
      var tail := header[1..];
      assert StripBearer(header) == [header[0]] + StripBearer(tail);
      StripBearerFirst(tail);
      var k :| FirstBearerAt(tail, k) && StripBearer(tail) == tail[..k] + tail[k + |BearerPrefix|..];
      FirstBearerShift(header, k);
      SpliceShift(header, k);
    }
  }

  /** Cutting at `k` in `header[1..]` is cutting at `k + 1` in `header`. */
  lemma SpliceShift(header: string, k: int)
    requires |header| >= 1 && 0 <= k && k + 1 + |BearerPrefix| <= |header|
    ensures [header[0]] + (header[1..][..k] + header[1..][k + |BearerPrefix|..])
            == header[..k + 1] + header[k + 1 + |BearerPrefix|..]
  {
  }

  /** A first occurrence in `header[1..]` is, one place later, the first in
      `header` when the header does not start with the prefix. */
  lemma FirstBearerShift(header: string, k: int)
    requires |header| >= |BearerPrefix| && header[..|BearerPrefix|] != BearerPrefix
    requires FirstBearerAt(header[1..], k)
    ensures FirstBearerAt(header, k + 1)
  {
    BearerAtTail(header, k);
    forall j | 0 <= j < k + 1
      ensures !BearerAt(header, j)
    {
      if j == 0 {
        assert header[0..|BearerPrefix|] == header[..|BearerPrefix|];
      } else {
        BearerAtTail(header, j - 1);
      }
    }
  }

  /** When `replace` leaves the header whole, the prefix occurs nowhere in it
      (the converse of StripBearerAbsent). */
  lemma {:induction false} StripBearerKeeps(header: string)
    requires |StripBearer(header)| == |header|
    ensures forall i :: !BearerAt(header, i)
    decreases |header|
  {
    if |header| >= |BearerPrefix| {
      var tail := header[1..];
      StripBearerKeeps(tail);
      forall i
        ensures !BearerAt(header, i)
      {
        if i == 0 {
          assert header[0..|BearerPrefix|] == header[..|BearerPrefix|];
        } else if i > 0 {
          BearerAtTail(header, i - 1);
        }
      }
    }
  }

  /** The token comes out empty exactly for the headers "" and "Bearer ". */
  lemma StripBearerEmpty(header: string)
    ensures StripBearer(header) == "" <==> header == "" || header == BearerPrefix
  {
    if |header| >= |BearerPrefix| && header[..|BearerPrefix|] == BearerPrefix {
      assert header == BearerPrefix + header[|BearerPrefix|..];
    }
  }

  /** The `auth` middleware: no token means 401 before any handler runs; a
      token that `verify` (the token library) rejects means 401 too; otherwise
      the claims of exactly the stripped token are passed on. */
  function Authenticate(authorization: Option<string>, verify: string -> Option<Claims>): (r: Result<Claims, HttpError>)
    ensures r.Success? <==> authorization.Some? && StripBearer(authorization.value) != ""
                            && verify(StripBearer(authorization.value)).Some?
    ensures r.Success? ==> verify(StripBearer(authorization.value)) == Some(r.value)
    ensures r.Failure? ==> r.error.status == 401
  {
    if authorization.None? || StripBearer(authorization.value) == "" then Failure(NoToken)
    else
      match verify(StripBearer(authorization.value))
      case None => Failure(BadToken)
      case Some(claims) => Success(claims)
  }

  /** A request without a bearer token is refused with "No token", whatever the verifier says. */
  lemma NoTokenRejected(authorization: Option<string>, verify: string -> Option<Claims>)
    ensures Authenticate(authorization, verify) == Failure(NoToken)
            <==> authorization in {None, Some(""), Some(BearerPrefix)}
  {
    if authorization.Some? {
      StripBearerEmpty(authorization.value);
    }
  }

  // ----- access decisions -----

  predicate IsAdmin(claims: Claims)
  {
    claims.role == Some("admin")
  }

  /** `toLowerCase` on the ASCII letters. */
  function LowerChar(c: char): char
  {
    if 'A' <= c <= 'Z' then (c as int - 'A' as int + 'a' as int) as char else c
  }

  function Lower(s: string): (r: string)
    ensures |r| == |s|
    ensures forall i :: 0 <= i < |s| ==> r[i] == LowerChar(s[i])
  {
    seq(|s|, i requires 0 <= i < |s| => LowerChar(s[i]))
  }

  /** Lower-casing twice is lower-casing once, so a stored lower-case email
      matches every capitalisation of itself. */
  lemma LowerIdempotent(s: string)
    ensures Lower(Lower(s)) == Lower(s)
  {
  }

  /** Responses leave out the password (`select('-password')`); the model blanks it. */
  function Redacted(e: Employee): (r: Employee)
    ensures r.password == "" && r.(password := e.password) == e
  {
    e.(password := "")
  }

  // ----- the PUT patch -----

  /** The fields PUT reads from the request body; None is a field the body leaves out. */
  datatype EmployeePatch = EmployeePatch(
    fullName: Option<string>,
    designation: Option<string>,
    ugQualification: Option<string>,
    pgQualification: Option<string>,
    phdQualification: Option<string>,
    dateOfBirth: Option<string>,
    dateOfJoining: Option<string>,
    previousExperience: Option<ExperienceInput>,
    profilePhoto: Option<string>)

  const EmptyPatch := EmployeePatch(None, None, None, None, None, None, None, None, None)

  /** A supplied previous experience that the schema would refuse at save. */
  predicate RejectedPrevious(patch: EmployeePatch)
  {
    patch.previousExperience.Some? && StoredPrevious(patch.previousExperience.value).None?
  }

  /** The PUT field rules relating a record before and after the patch. Text
      fields and dates change only for a truthy value, qualifications and the
      photo for any supplied value (so "" clears them), the previous
      experience whenever supplied; every other field keeps its value. */
  ghost predicate Patched(before: Employee, after: Employee, patch: EmployeePatch)
  {
    && after.fullName == (if Truthy(patch.fullName) then patch.fullName.value else before.fullName)
    && after.designation == (if Truthy(patch.designation) then patch.designation.value else before.designation)
    && after.ugQualification == patch.ugQualification.GetOr(before.ugQualification)
    && after.pgQualification == patch.pgQualification.GetOr(before.pgQualification)
    && after.phdQualification == patch.phdQualification.GetOr(before.phdQualification)
    && after.dateOfBirth == (if Truthy(patch.dateOfBirth) then patch.dateOfBirth.value else before.dateOfBirth)
    && after.dateOfJoining == (if Truthy(patch.dateOfJoining) then patch.dateOfJoining.value else before.dateOfJoining)
    && (patch.previousExperience.None? ==> after.previousExperience == before.previousExperience)
    && (patch.previousExperience.Some? ==> Some(after.previousExperience) == StoredPrevious(patch.previousExperience.value))
    && after.profilePhoto == patch.profilePhoto.GetOr(before.profilePhoto)
    && after.employeeId == before.employeeId
    && after.email == before.email
    && after.password == before.password
    && after.createdBy == before.createdBy
  }

  /** A body that supplies nothing leaves the record as it was. */
  lemma EmptyPatchKeepsRecord(before: Employee, after: Employee)
    requires Patched(before, after, EmptyPatch)
    ensures after == before
  {
  }

  /** An empty string clears a qualification but leaves the name alone. */
  lemma EmptyStringClearsOnlyQualifications(before: Employee, after: Employee)
    requires Patched(before, after, EmptyPatch.(fullName := Some(""), ugQualification := Some("")))
    ensures after.ugQualification == "" && after.fullName == before.fullName
  {
  }

  /** The store invariant: every stored previous experience is within the
      schema bounds, and employeeId is unique. */
  ghost predicate ValidRecords(records: map<string, Employee>)
  {
    && (forall id :: id in records ==> ValidPrevious(records[id].previousExperience))
    && (forall a, b :: a in records && b in records && records[a].employeeId == records[b].employeeId ==> a == b)
  }

  /** The field writes of the PUT handler, one `if` per field, on a loaded
      record whose patch passes the schema's save-time checks. */
  method ApplyPatch(before: Employee, patch: EmployeePatch) returns (after: Employee)
    requires !RejectedPrevious(patch)
    ensures Patched(before, after, patch)
  {
    var fullName := if Truthy(patch.fullName) then patch.fullName.value else before.fullName;
    var designation := if Truthy(patch.designation) then patch.designation.value else before.designation;
    var ug := if patch.ugQualification.Some? then patch.ugQualification.value else before.ugQualification;
    var pg := if patch.pgQualification.Some? then patch.pgQualification.value else before.pgQualification;
    var phd := if patch.phdQualification.Some? then patch.phdQualification.value else before.phdQualification;
    var dateOfBirth := if Truthy(patch.dateOfBirth) then patch.dateOfBirth.value else before.dateOfBirth;
    var dateOfJoining := if Truthy(patch.dateOfJoining) then patch.dateOfJoining.value else before.dateOfJoining;
    var previous := if patch.previousExperience.Some? then StoredPrevious(patch.previousExperience.value).value else before.previousExperience;
    var photo := if patch.profilePhoto.Some? then patch.profilePhoto.value else before.profilePhoto;
    after := before.(fullName := fullName, designation := designation,
                     ugQualification := ug, pgQualification := pg, phdQualification := phd,
                     dateOfBirth := dateOfBirth, dateOfJoining := dateOfJoining,
                     previousExperience := previous, profilePhoto := photo);
  }

  /** A patched record keeps the store invariant: its employeeId is unchanged
      and its previous experience passed the schema. */
  lemma PatchKeepsValid(records: map<string, Employee>, id: string, patch: EmployeePatch, after: Employee)
    requires ValidRecords(records) && id in records
    requires !RejectedPrevious(patch) && Patched(records[id], after, patch)
    ensures ValidRecords(records[id := after])
  {
    var updated := records[id := after];
    forall a, b | a in updated && b in updated && updated[a].employeeId == updated[b].employeeId
      ensures a == b
    {
      assert updated[a].employeeId == records[a].employeeId;
      assert updated[b].employeeId == records[b].employeeId;
    }
  }

  // ----- the router -----

  datatype Route =
    | ListAll
    | GetOne(id: string)
    | ByEmployeeId(employeeId: string)
    | ByEmail(email: string)
    | Update(id: string, patch: EmployeePatch)
    | Remove(id: string)

  datatype Request = Request(authorization: Option<string>, route: Route)

  datatype Reply = Employees(all: map<string, Employee>) | One(employee: Employee) | Deleted

  /** The employee collection, keyed by document id, and the routes over it. */
  class EmployeeStore {
    var records: map<string, Employee>

    ghost predicate Valid()
      reads this
    {
      ValidRecords(records)
    }

    constructor (initial: map<string, Employee>)
      requires ValidRecords(initial)
      ensures Valid() && records == initial
    {
      records := initial;
    }

    /** GET /: the whole collection, for the admin only. */
    method ListEmployees(claims: Claims) returns (r: Result<map<string, Employee>, HttpError>)
      ensures r.Failure? <==> !IsAdmin(claims)
      ensures r.Failure? ==> r.error == AccessDenied
      ensures r.Success? ==> r.value.Keys == records.Keys
                             && forall id :: id in records ==> r.value[id] == Redacted(records[id])
    {
      if !IsAdmin(claims) {
        return Failure(AccessDenied);
      }
      r := Success(map id | id in records :: Redacted(records[id]));
    }

    /** GET /:id: the admin sees any record; anyone else only the record whose
        email is the token's, and gets "not found" (not "access denied")
        for any other. */
    method GetById(claims: Claims, id: string) returns (r: Result<Employee, HttpError>)
      ensures r.Success? <==> id in records && (IsAdmin(claims) || claims.email == Some(records[id].email))
      ensures r.Success? ==> r.value == Redacted(records[id])
      ensures r.Failure? ==> r.error == NotFound
    {
      if id in records && (IsAdmin(claims) || claims.email == Some(records[id].email)) {
        r := Success(Redacted(records[id]));
      } else {
        r := Failure(NotFound);
      }
    }

    /** GET /profile/:employeeId: anyone but the admin is refused unless the
        token's employeeId is the one asked for. */
    method GetByEmployeeId(claims: Claims, employeeId: string) returns (r: Result<Employee, HttpError>)
      ensures r == Failure(AccessDenied) <==> !IsAdmin(claims) && claims.employeeId != Some(employeeId)
      ensures r == Failure(NotFound) <==>
                (IsAdmin(claims) || claims.employeeId == Some(employeeId))
                && forall id :: id in records ==> records[id].employeeId != employeeId
      ensures r.Failure? ==> r.error == AccessDenied || r.error == NotFound
      ensures r.Success? ==> exists id :: id in records && records[id].employeeId == employeeId
                                          && r.value == Redacted(records[id])
    {
      if !IsAdmin(claims) && claims.employeeId != Some(employeeId) {
        return Failure(AccessDenied);
      }
      if id :| id in records && records[id].employeeId == employeeId {
        r := Success(Redacted(records[id]));
      } else {
        r := Failure(NotFound);
      }
    }

    /** GET /profile/email/:email: the path email is lower-cased, and anyone
        but the admin is refused unless it is the token's email. */
    method GetByEmail(claims: Claims, email: string) returns (r: Result<Employee, HttpError>)
      ensures r == Failure(AccessDenied) <==> !IsAdmin(claims) && claims.email != Some(Lower(email))
      ensures r == Failure(NotFound) <==>
                (IsAdmin(claims) || claims.email == Some(Lower(email)))
                && forall id :: id in records ==> records[id].email != Lower(email)
      ensures r.Failure? ==> r.error == AccessDenied || r.error == NotFound
      ensures r.Success? ==> exists id :: id in records && records[id].email == Lower(email)
                                          && r.value == Redacted(records[id])
    {
      var lowered := Lower(email);
      if !IsAdmin(claims) && claims.email != Some(lowered) {
        return Failure(AccessDenied);
      }
      if id :| id in records && records[id].email == lowered {
        r := Success(Redacted(records[id]));
      } else {
        r := Failure(NotFound);
      }
    }

    /** PUT /:id: a missing record is 404 before any permission check; a
        caller who is neither admin nor the record's owner by email is 403;
        a previous experience outside the schema bounds fails at save (500).
        Otherwise the record is patched field by field and nothing else in
        the store changes. */
    method UpdateEmployee(claims: Claims, id: string, patch: EmployeePatch) returns (r: Result<Employee, HttpError>)
      requires Valid()
      modifies this
      ensures Valid()
      ensures id !in old(records) ==> r == Failure(NotFound)
      ensures id in old(records) && !IsAdmin(claims) && claims.email != Some(old(records)[id].email) ==>
                r == Failure(AccessDenied)
      ensures (id in old(records) && (IsAdmin(claims) || claims.email == Some(old(records)[id].email))
               && RejectedPrevious(patch)) ==> r == Failure(ServerError)
      ensures r.Failure? ==> records == old(records)
      ensures r.Success? <==> id in old(records) && (IsAdmin(claims) || claims.email == Some(old(records)[id].email))
                              && !RejectedPrevious(patch)
      ensures r.Success? ==> records.Keys == old(records).Keys
                             && Patched(old(records)[id], records[id], patch)
                             && (forall other :: other in records && other != id ==> records[other] == old(records)[other])
                             && r.value == Redacted(records[id])
    {
      if id !in records {
        return Failure(NotFound);
      }
      var employee := records[id];
      if !IsAdmin(claims) && claims.email != Some(employee.email) {
        return Failure(AccessDenied);
      }
      // the schema applies its defaults and bounds when the document is saved
      if RejectedPrevious(patch) {
        return Failure(ServerError);
      }
      employee := ApplyPatch(employee, patch);
      PatchKeepsValid(records, id, patch, employee);
      records := records[id := employee];
      r := Success(Redacted(employee));
    }

    /** DELETE /:id: admin only; a missing id is 404; otherwise exactly that
        record is removed. */
    method DeleteEmployee(claims: Claims, id: string) returns (r: Result<(), HttpError>)
      requires Valid()
      modifies this
      ensures Valid()
      ensures !IsAdmin(claims) ==> r == Failure(AccessDenied)
      ensures IsAdmin(claims) && id !in old(records) ==> r == Failure(NotFound)
      ensures r.Success? <==> IsAdmin(claims) && id in old(records)
      ensures r.Success? ==> records == old(records) - {id}
      ensures r.Failure? ==> records == old(records)
    {
      if !IsAdmin(claims) {
        return Failure(AccessDenied);
      }
      if id !in records {
        return Failure(NotFound);
      }
      records := records - {id};
      r := Success(());
    }

    /** A request through the router: `auth` runs first, and a request it
        refuses reaches no handler and changes nothing. */
    method Handle(request: Request, verify: string -> Option<Claims>) returns (r: Result<Reply, HttpError>)
      requires Valid()
      modifies this
      ensures Valid()
      ensures Authenticate(request.authorization, verify).Failure? ==>
                r == Failure(Authenticate(request.authorization, verify).error) && records == old(records)
      ensures !request.route.Update? && !request.route.Remove? ==> records == old(records)
      ensures Authenticate(request.authorization, verify).Success? ==>
                var claims := Authenticate(request.authorization, verify).value;
                match request.route
                case ListAll =>
                  && (r.Success? <==> IsAdmin(claims))
                  && (r.Failure? ==> r.error == AccessDenied)
                  && (r.Success? ==> r.value.Employees? && r.value.all.Keys == records.Keys
                                     && forall id :: id in records ==> r.value.all[id] == Redacted(records[id]))
                case GetOne(id) =>
                  && (r.Success? <==> id in records && (IsAdmin(claims) || claims.email == Some(records[id].email)))
                  && (r.Success? ==> r.value == One(Redacted(records[id])))
                  && (r.Failure? ==> r.error == NotFound)
                case ByEmployeeId(employeeId) =>
                  && (r.Success? <==> (IsAdmin(claims) || claims.employeeId == Some(employeeId))
                                      && exists id :: id in records && records[id].employeeId == employeeId)
                  && (r.Failure? ==> r.error == if !IsAdmin(claims) && claims.employeeId != Some(employeeId)
                                                then AccessDenied else NotFound)
                  && (r.Success? ==> r.value.One? && exists id :: id in records && records[id].employeeId == employeeId
                                                                   && r.value.employee == Redacted(records[id]))
                case ByEmail(email) =>
                  && (r.Success? <==> (IsAdmin(claims) || claims.email == Some(Lower(email)))
                                      && exists id :: id in records && records[id].email == Lower(email))
                  && (r.Failure? ==> r.error == if !IsAdmin(claims) && claims.email != Some(Lower(email))
                                                then AccessDenied else NotFound)
                  && (r.Success? ==> r.value.One? && exists id :: id in records && records[id].email == Lower(email)
                                                                   && r.value.employee == Redacted(records[id]))
                case Update(id, patch) =>
                  && (r.Success? <==> id in old(records)
                                      && (IsAdmin(claims) || claims.email == Some(old(records)[id].email))
                                      && !RejectedPrevious(patch))
                  && (r.Success? ==> records.Keys == old(records).Keys && Patched(old(records)[id], records[id], patch)
                                     && (forall other :: other in records && other != id ==> records[other] == old(records)[other])
                                     && r.value == One(Redacted(records[id])))
                  && (r.Failure? ==> records == old(records)
                                     && r.error == if id !in old(records) then NotFound
                                                   else if !IsAdmin(claims) && claims.email != Some(old(records)[id].email)
                                                   then AccessDenied
                                                   else ServerError)
                case Remove(id) =>
                  && (r.Success? <==> IsAdmin(claims) && id in old(records))
                  && (r.Success? ==> records == old(records) - {id} && r.value == Deleted)
                  && (r.Failure? ==> records == old(records) && r.error == if !IsAdmin(claims) then AccessDenied else NotFound)
    {
      var auth := Authenticate(request.authorization, verify);
      if auth.Failure? {
        return Failure(auth.error);
      }
      var claims := auth.value;
      match request.route {
        case ListAll =>
          var all := ListEmployees(claims);
          r := if all.Success? then Success(Employees(all.value)) else Failure(all.error);
        case GetOne(id) =>
          var one := GetById(claims, id);
          r := if one.Success? then Success(One(one.value)) else Failure(one.error);
        case ByEmployeeId(employeeId) =>
          var one := GetByEmployeeId(claims, employeeId);
          r := if one.Success? then Success(One(one.value)) else Failure(one.error);
        case ByEmail(email) =>
          var one := GetByEmail(claims, email);
          r := if one.Success? then Success(One(one.value)) else Failure(one.error);
        case Update(id, patch) =>
          var one := UpdateEmployee(claims, id, patch);
          r := if one.Success? then Success(One(one.value)) else Failure(one.error);
        case Remove(id) =>
          var done := DeleteEmployee(claims, id);
          r := if done.Success? then Success(Deleted) else Failure(done.error);
      }
    }
  }
}
