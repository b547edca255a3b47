/** The admin user routes (routes/admin.js): the paging arithmetic of the
    user listing, the dashboard counts, and the update, delete and
    toggle-status handlers with their guards against acting on the caller's
    own account. The caller is the user that the admin middleware
    authenticated; the user collection is a map from document id to user. */
module AdminRoutes {
  import opened Wrappers
  import opened Numerals
  import opened Http

  // ----- parseInt -----

  /** The white-space characters parseInt skips that the model knows of. */
  predicate IsJsSpace(c: char)
  {
    c == ' ' || c == '\t' || c == '\n' || c == '\r' || c as int == 0x0B || c as int == 0x0C
    || c as int == 0xA0 || c as int == 0xFEFF
  }

  function SkipSpaces(s: string): (t: string)
    ensures t == [] || !IsJsSpace(t[0])
    ensures |t| <= |s| && t == s[|s| - |t|..]
    ensures forall i :: 0 <= i < |s| - |t| ==> IsJsSpace(s[i])
  {
    if s != [] && IsJsSpace(s[0]) then SkipSpaces(s[1..]) else s
  }

  /** The longest run of `radix` digits at the start of `s`. */
  function RadixPrefix(s: string, radix: nat): (p: string)
    ensures AllRadixDigits(p, radix) && |p| <= |s| && p == s[..|p|]
    ensures |p| < |s| ==> !IsRadixDigit(s[|p|], radix)
  {
    if s != [] && IsRadixDigit(s[0], radix) then [s[0]] + RadixPrefix(s[1..], radix) else []
  }

  predicate HexPrefixed(u: string)
  {
    |u| >= 2 && u[0] == '0' && (u[1] == 'x' || u[1] == 'X')
  }

  /** What follows the leading white space and an optional sign. */
  function Unsigned(s: string): string
  {
    var t := SkipSpaces(s);
    if t != [] && (t[0] == '-' || t[0] == '+') then t[1..] else t
  }

  /** The digits after the sign: a "0x" or "0X" prefix selects hexadecimal,
      and as many digits as there are are read; None when there are none. */
  function ParseUnsigned(u: string): (r: Option<nat>)
    ensures r.None? <==> if HexPrefixed(u) then |u| == 2 || !IsRadixDigit(u[2], 16)
                         else u == [] || !IsDecimalDigit(u[0])
  {
    var hex := HexPrefixed(u);
    var radix := if hex then 16 else 10;
    var digits := RadixPrefix(if hex then u[2..] else u, radix);
    if digits == [] then None else Some(NumeralValue(digits, radix))
  }

  /** `parseInt(s)` without a radix argument: leading white space, an optional
      sign, then the digits; None is NaN, what a string without digits gives. */
  function JsParseInt(s: string): (r: Option<int>)
    ensures r.None? <==> ParseUnsigned(Unsigned(s)).None?
    ensures r.Some? ==> (r.value < 0 ==> SkipSpaces(s)[0] == '-')
                        && (if r.value < 0 then -r.value else r.value) == ParseUnsigned(Unsigned(s)).value
  {
    var t := SkipSpaces(s);
    if t != [] && t[0] == '-' then
      match ParseUnsigned(t[1..])
      case None => None
      case Some(v) => Some(-(v as int))
    else if t != [] && t[0] == '+' then
      match ParseUnsigned(t[1..])
      case None => None
      case Some(v) => Some(v)
    else
      match ParseUnsigned(t)
      case None => None
      case Some(v) => Some(v)
  }

  /** A run of digits followed by a non-digit is read up to the non-digit. */
  lemma {:induction false} RadixPrefixOfDigits(p: string, rest: string, radix: nat)
    requires AllRadixDigits(p, radix)
    requires rest == [] || !IsRadixDigit(rest[0], radix)
    ensures RadixPrefix(p + rest, radix) == p
  {
    if p != [] {
      assert (p + rest)[1..] == p[1..] + rest;
      RadixPrefixOfDigits(p[1..], rest, radix);
    }
  }

  /** The numeral of `n` is read back as `n`, up to anything after it that is
      not a digit (nor, after "0", an "x" that would make "0x"). */
  lemma ParseUnsignedNumeral(n: nat, rest: string)
    requires rest == [] || (!IsDecimalDigit(rest[0]) && (n != 0 || (rest[0] != 'x' && rest[0] != 'X')))
    ensures ParseUnsigned(NatToString(n) + rest) == Some(n)
  {
    var s := NatToString(n) + rest;
    assert !HexPrefixed(s) by {
      assert s[0] == NatToString(n)[0];
      if |s| >= 2 && |NatToString(n)| >= 2 { assert s[1] == NatToString(n)[1]; }
    }
    RadixPrefixOfDigits(NatToString(n), rest, 10);
    NatToStringValue(n);
  }

  /** parseInt reads back the numeral of `n`, and stops at what follows it. */
  lemma ParseIntNumeral(n: nat, rest: string)
    requires rest == [] || (!IsDecimalDigit(rest[0]) && (n != 0 || (rest[0] != 'x' && rest[0] != 'X')))
    ensures JsParseInt(NatToString(n) + rest) == Some(n)
  {
    var s := NatToString(n) + rest;
    assert s[0] == NatToString(n)[0];
    NoSign(s);
    ParseUnsignedNumeral(n, rest);
  }

  /** Text that starts with neither white space nor a sign is read as it stands. */
  lemma NoSign(s: string)
    requires s != [] && !IsJsSpace(s[0]) && s[0] != '-' && s[0] != '+'
    ensures JsParseInt(s) == ParseUnsigned(s)
  {
    assert SkipSpaces(s) == s;
  }

  /** A leading minus sign negates. */
  lemma ParseIntNegative(n: nat)
    ensures JsParseInt("-" + NatToString(n)) == Some(-(n as int))
  {
    var u := NatToString(n);
    ParseUnsignedNumeral(n, []);
    assert u + [] == u;
    NegatedDigits(u, n);
  }

  /** A minus sign before digits that read as `v` gives -v. */
  lemma NegatedDigits(u: string, v: nat)
    requires ParseUnsigned(u) == Some(v)
    ensures JsParseInt("-" + u) == Some(-(v as int))
  {
    var s := "-" + u;
    assert s[1..] == u;
    MinusSign(s);
  }

  /** After a minus sign, parseInt negates what the digits read as. */
  lemma MinusSign(s: string)
    requires s != [] && s[0] == '-'
    ensures JsParseInt(s) == match ParseUnsigned(s[1..]) case None => None case Some(v) => Some(-(v as int))
  {
    assert SkipSpaces(s) == s;
  }

  /** Strings without digits are NaN. */
  lemma ParseIntNaN()
    ensures JsParseInt("") == None
    ensures JsParseInt("abc") == None
  {
    assert SkipSpaces("abc") == "abc";
    assert RadixPrefix("abc", 10) == [];
  }

  /** Leading white space is skipped and trailing text after the digits ignored. */
  lemma ParseIntTrailingText()
    ensures JsParseInt(" 12abc") == Some(12)
  {
    NumeralTwelve();
    assert " 12abc" == [' '] + (NatToString(12) + "abc");
    LeadingSpace([' '] + (NatToString(12) + "abc"));
    ParseIntNumeral(12, "abc");
  }

  /** An "x" after a non-zero numeral is trailing text, not a hexadecimal prefix. */
  lemma ParseIntTrailingX()
    ensures JsParseInt("12x") == Some(12)
  {
    NumeralTwelve();
    assert "12x" == NatToString(12) + "x";
    ParseIntNumeral(12, "x");
  }

  /** Twelve is written "12". */
  lemma NumeralTwelve()
    ensures NatToString(12) == "12"
  {
    assert NatToString(1) == "1";
  }

  /** A leading white-space character does not change what parseInt reads. */
  lemma LeadingSpace(s: string)
    requires s != [] && IsJsSpace(s[0])
    ensures JsParseInt(s) == JsParseInt(s[1..])
  {
  }

  /** A "0x" prefix reads the rest in hexadecimal. */
  lemma ParseIntHex()
    ensures JsParseInt("0x1A") == Some(26)
  {
    var h := "0x1A";
    assert SkipSpaces(h) == h;
    assert h[2..] == "1A";
    assert RadixPrefix("1A", 16) == "1A" by {
      RadixPrefixOfDigits("1A", [], 16);
      assert "1A" + [] == "1A";
    }
    assert NumeralValue("1A", 16) == 26 by {
      assert "1A"[..1] == "1";
      assert "1"[..0] == [];
    }
  }

  // ----- paging -----

  /** `parseInt(value) || fallback`: NaN and 0 are falsy and give way to the fallback. */
  function ParsedOr(value: Option<string>, fallback: int): (n: int)
    ensures fallback != 0 ==> n != 0
    ensures n == fallback || (value.Some? && JsParseInt(value.value) == Some(n) && n != 0)
    ensures value.None? ==> n == fallback
    ensures value.Some? && JsParseInt(value.value).Some? && JsParseInt(value.value).value != 0
            ==> n == JsParseInt(value.value).value
  {
    if value.None? then fallback
    else match JsParseInt(value.value)
      case None => fallback
      case Some(v) => if v == 0 then fallback else v
  }

  /** The query string of GET /users; None is a parameter left out. */
  datatype UserQuery = UserQuery(
    page: Option<string>,
    limit: Option<string>,
    search: Option<string>,
    sortBy: Option<string>,
    sortOrder: Option<string>)

  /** What the handler passes on to the database query. */
  datatype Listing = Listing(page: int, limit: int, skip: int, search: string, sortBy: string, sortOrder: int)

  const DefaultPage := 1
  const DefaultLimit := 10

  /** The paging, search and sorting parameters derived from a query. */
  function ListingOf(q: UserQuery): (l: Listing)
    ensures l.page == ParsedOr(q.page, DefaultPage) && l.limit == ParsedOr(q.limit, DefaultLimit)
    ensures l.page != 0 && l.limit != 0
    ensures l.skip == (l.page - 1) * l.limit
    ensures l.sortOrder == 1 <==> q.sortOrder == Some("asc")
    ensures l.sortOrder == 1 || l.sortOrder == -1
    ensures l.sortBy == (if Truthy(q.sortBy) then q.sortBy.value else "createdAt")
    ensures l.search == (if Truthy(q.search) then q.search.value else "")
  {
    var page := ParsedOr(q.page, DefaultPage);
    var limit := ParsedOr(q.limit, DefaultLimit);
    Listing(page, limit, (page - 1) * limit,
            if Truthy(q.search) then q.search.value else "",
            if Truthy(q.sortBy) then q.sortBy.value else "createdAt",
            if q.sortOrder == Some("asc") then 1 else -1)
  }

  /** A query with nothing in it asks for the first ten users, newest first. */
  lemma ListingDefaults()
    ensures ListingOf(UserQuery(None, None, None, None, None)) == Listing(1, 10, 0, "", "createdAt", -1)
  {
  }

  /** A positive numeral is taken at its value, whatever the fallback. */
  lemma ParsedOrNumeral(n: nat, fallback: int)
    requires n > 0
    ensures ParsedOr(Some(NatToString(n)), fallback) == n
  {
    ParseIntNumeral(n, []);
    assert NatToString(n) + [] == NatToString(n);
  }

  /** Page and limit given as numerals are used as they are. */
  lemma ListingOfNumerals(page: nat, limit: nat, q: UserQuery)
    requires page > 0 && limit > 0
    requires q.page == Some(NatToString(page)) && q.limit == Some(NatToString(limit))
    ensures ListingOf(q).page == page && ListingOf(q).limit == limit
    ensures ListingOf(q).skip == (page - 1) * limit
  {
    ParsedOrNumeral(page, DefaultPage);
    ParsedOrNumeral(limit, DefaultLimit);
  }

  /** A page of "0" (or "-0") is falsy and falls back to the first page. */
  lemma ListingZeroPage(q: UserQuery)
    requires q.page == Some("0") || q.page == Some("-0")
    ensures ListingOf(q).page == 1 && ListingOf(q).skip == 0
  {
    ParseIntZero();
    assert ParsedOr(q.page, DefaultPage) == DefaultPage;
  }

  /** "0" and "-0" both parse to zero. */
  lemma ParseIntZero()
    ensures JsParseInt("0") == Some(0) && JsParseInt("-0") == Some(0)
  {
    ParseIntNumeral(0, []);
    ParseIntNegative(0);
    assert NatToString(0) + [] == "0";
    assert "-" + NatToString(0) == "-0";
  }

  /** `Math.ceil(total / limit)` for the non-zero limit the defaults ensure.
      With a positive limit the pages just cover the total. */
  function TotalPages(total: nat, limit: int): (pages: int)
    requires limit != 0
    ensures limit > 0 ==> pages >= 0 && (pages == 0 <==> total == 0)
    ensures limit > 0 && total > 0 ==> (pages - 1) * limit < total <= pages * limit
    ensures limit < 0 ==> pages <= 0 && pages * limit <= total < (pages - 1) * limit
  {
    if limit > 0 then
      var pages := (total + limit - 1) / limit;
      assert total + limit - 1 == pages * limit + (total + limit - 1) % limit;
      pages
    else -(total / -limit)
  }

  // ----- users -----

  /** A user document as the handlers read and write it. */
  datatype User = User(username: string, email: string, password: string, role: string, isActive: bool)

  /** Responses leave out the password; the model blanks it. */
  function Redacted(u: User): (r: User)
    ensures r.password == "" && r.(password := u.password) == u
  {
    u.(password := "")
  }

  /** The dashboard's user counts. */
  datatype Stats = Stats(totalUsers: nat, activeUsers: nat, inactiveUsers: int, totalEmployees: nat)

  function ActiveIds(users: map<string, User>): set<string>
  {
    set id | id in users && users[id].isActive
  }

  function InactiveIds(users: map<string, User>): set<string>
  {
    set id | id in users && !users[id].isActive
  }

  /** GET /dashboard's counts: the inactive count, taken as total minus
      active, is the number of inactive users. */
  function DashboardStats(users: map<string, User>, totalEmployees: nat): (s: Stats)
    ensures s.totalUsers == |users| && s.activeUsers == |ActiveIds(users)|
    ensures s.inactiveUsers == |InactiveIds(users)|
    ensures 0 <= s.inactiveUsers <= s.totalUsers
  {
    var active, inactive := ActiveIds(users), InactiveIds(users);
    assert users.Keys == active + inactive && active !! inactive;
    assert |users| == |users.Keys|;
    Stats(|users|, |active|, |users| - |active|, totalEmployees)
  }

  /** Usernames and emails are each unique across the collection. */
  ghost predicate ValidUsers(users: map<string, User>)
  {
    && (forall a, b :: a in users && b in users && users[a].username == users[b].username ==> a == b)
    && (forall a, b :: a in users && b in users && users[a].email == users[b].email ==> a == b)
  }

  /** The fields PUT /users/:id reads from the body; isActive is kept only when it is a boolean. */
  datatype UserPatch = UserPatch(
    username: Option<string>,
    email: Option<string>,
    password: Option<string>,
    role: Option<string>,
    isActive: Option<bool>)

  /** The body asks for a username someone already has. */
  predicate UsernameTaken(users: map<string, User>, id: string, patch: UserPatch)
    requires id in users
    ensures UsernameTaken(users, id, patch) ==>
              patch.username.Some? && exists k :: k in users && k != id && users[k].username == patch.username.value
  {
    Truthy(patch.username) && patch.username.value != users[id].username
    && exists k :: k in users && users[k].username == patch.username.value
  }

  /** The body asks for an email someone already has. */
  predicate EmailTaken(users: map<string, User>, id: string, patch: UserPatch)
    requires id in users
    ensures EmailTaken(users, id, patch) ==>
              patch.email.Some? && exists k :: k in users && k != id && users[k].email == patch.email.value
  {
    Truthy(patch.email) && patch.email.value != users[id].email
    && exists k :: k in users && users[k].email == patch.email.value
  }

  /** The PUT field rules: the four text fields change only for a truthy
      value, isActive only for a boolean. */
  ghost predicate UserPatched(before: User, after: User, patch: UserPatch)
  {
    && after.username == (if Truthy(patch.username) then patch.username.value else before.username)
    && after.email == (if Truthy(patch.email) then patch.email.value else before.email)
    && after.password == (if Truthy(patch.password) then patch.password.value else before.password)
    && after.role == (if Truthy(patch.role) then patch.role.value else before.role)
    && after.isActive == patch.isActive.GetOr(before.isActive)
  }

  /** A patch that passed the clash checks keeps usernames and emails unique. */
  lemma UserPatchKeepsValid(users: map<string, User>, id: string, patch: UserPatch, after: User)
    requires ValidUsers(users) && id in users
    requires !UsernameTaken(users, id, patch) && !EmailTaken(users, id, patch)
    requires UserPatched(users[id], after, patch)
    ensures ValidUsers(users[id := after])
  {
  }

  /** A user with the given username or email already exists (the `$or` query of POST /users). */
  predicate Registered(users: map<string, User>, username: string, email: string)
    ensures Registered(users, username, email) <==>
              (exists k :: k in users && users[k].email == email) || (exists k :: k in users && users[k].username == username)
  {
    exists k :: k in users && (users[k].email == email || users[k].username == username)
  }

  /** What the body validators (express-validator) reject. */
  const InvalidInput := HttpError(400, "Validation failed")
  const UserNotFound := HttpError(404, "User not found")
  const UserExists := HttpError(400, "User already exists")
  const UsernameExists := HttpError(400, "Username already exists")
  const EmailExists := HttpError(400, "Email already exists")
  const CannotDeactivateSelf := HttpError(400, "You cannot deactivate your own account")
  const CannotDeleteSelf := HttpError(400, "You cannot delete your own account")
  const CannotChangeOwnStatus := HttpError(400, "You cannot change your own account status")

  /** The user collection, keyed by document id, and the admin handlers over it. */
  class UserStore {
    var users: map<string, User>

    ghost predicate Valid()
      reads this
    {
      ValidUsers(users)
    }

    constructor (initial: map<string, User>)
      requires ValidUsers(initial)
      ensures Valid() && users == initial
    {
      users := initial;
    }

    /** GET /dashboard: the counts over the current collection. */
    method Dashboard(totalEmployees: nat) returns (s: Stats)
      ensures s.totalUsers == |users| && s.activeUsers + s.inactiveUsers == s.totalUsers
      ensures s.inactiveUsers == |InactiveIds(users)| && s.totalEmployees == totalEmployees
    {
      s := DashboardStats(users, totalEmployees);
    }

    /** GET /users/:id. */
    method GetUser(id: string) returns (r: Result<User, HttpError>)
      ensures r.Success? <==> id in users
      ensures r.Success? ==> r.value == Redacted(users[id])
      ensures r.Failure? ==> r.error == UserNotFound
    {
      if id !in users {
        return Failure(UserNotFound);
      }
      r := Success(Redacted(users[id]));
    }

    /** POST /users. `inputValid` is the verdict of the body validators,
        `newId` the id the database gives the new document and
        `activeByDefault` the User schema's default for isActive. A username
        or email already in use is refused, which keeps both unique. */
    method CreateUser(newId: string, username: string, email: string, password: string, role: string,
                      inputValid: bool, activeByDefault: bool)
      returns (r: Result<User, HttpError>)
      requires Valid() && newId !in users
      modifies this
      ensures Valid()
      ensures !inputValid ==> r == Failure(InvalidInput)
      ensures inputValid && Registered(old(users), username, email) ==> r == Failure(UserExists)
      ensures r.Success? <==> inputValid && !Registered(old(users), username, email)
      ensures r.Success? ==> users == old(users)[newId := User(username, email, password, role, activeByDefault)]
                             && r.value == Redacted(users[newId])
      ensures r.Failure? ==> users == old(users)
    {
      if !inputValid {
        return Failure(InvalidInput);
      }
      if Registered(users, username, email) {
        return Failure(UserExists);
      }
      var user := User(username, email, password, role, activeByDefault);
      users := users[newId := user];
      r := Success(Redacted(user));
    }

    /** PUT /users/:id. `inputValid` is the verdict of the body validators.
        The checks run in the handler's order: validation, existence,
        username clash, email clash, then the refusal to deactivate one's own
        account; only then are the supplied fields written. */
    method UpdateUser(caller: string, id: string, patch: UserPatch, inputValid: bool) returns (r: Result<User, HttpError>)
      requires Valid()
      modifies this
      ensures Valid()
      ensures !inputValid ==> r == Failure(InvalidInput)
      ensures inputValid && id !in old(users) ==> r == Failure(UserNotFound)
      ensures inputValid && id in old(users) && UsernameTaken(old(users), id, patch) ==> r == Failure(UsernameExists)
      ensures (inputValid && id in old(users) && !UsernameTaken(old(users), id, patch)
               && EmailTaken(old(users), id, patch)) ==> r == Failure(EmailExists)
      ensures (inputValid && id in old(users) && !UsernameTaken(old(users), id, patch)
               && !EmailTaken(old(users), id, patch) && patch.isActive == Some(false) && id == caller)
              ==> r == Failure(CannotDeactivateSelf)
      ensures r.Failure? ==> users == old(users)
      ensures r.Success? <==> inputValid && id in old(users) && !UsernameTaken(old(users), id, patch)
                              && !EmailTaken(old(users), id, patch) && !(patch.isActive == Some(false) && id == caller)
      ensures r.Success? ==> users.Keys == old(users).Keys && UserPatched(old(users)[id], users[id], patch)
                             && (forall other :: other in users && other != id ==> users[other] == old(users)[other])
                             && r.value == Redacted(users[id])
    {
      if !inputValid {
        return Failure(InvalidInput);
      }
      if id !in users {
        return Failure(UserNotFound);
      }
      var user := users[id];
      if UsernameTaken(users, id, patch) {
        return Failure(UsernameExists);
      }
      if EmailTaken(users, id, patch) {
        return Failure(EmailExists);
      }
      if patch.isActive == Some(false) && id == caller {
        return Failure(CannotDeactivateSelf);
      }

      var username := if Truthy(patch.username) then patch.username.value else user.username;
      var email := if Truthy(patch.email) then patch.email.value else user.email;
      var password := if Truthy(patch.password) then patch.password.value else user.password;
      var role := if Truthy(patch.role) then patch.role.value else user.role;
      var isActive := if patch.isActive.Some? then patch.isActive.value else user.isActive;
      var after := User(username, email, password, role, isActive);

      UserPatchKeepsValid(users, id, patch, after);
      users := users[id := after];
      r := Success(Redacted(after));
    }

    /** DELETE /users/:id: a missing user is 404, the caller's own account is
        refused, otherwise exactly that user is removed. */
    method DeleteUser(caller: string, id: string) returns (r: Result<(), HttpError>)
      requires Valid()
      modifies this
      ensures Valid()
      ensures id !in old(users) ==> r == Failure(UserNotFound)
      ensures id in old(users) && id == caller ==> r == Failure(CannotDeleteSelf)
      ensures r.Success? <==> id in old(users) && id != caller
      ensures r.Success? ==> users == old(users) - {id}
      ensures r.Failure? ==> users == old(users)
    {
      if id !in users {
        return Failure(UserNotFound);
      }
      if id == caller {
        return Failure(CannotDeleteSelf);
      }
      users := users - {id};
      r := Success(());
    }

    /** PUT /users/:id/toggle-status: a missing user is 404, the caller's own
        account is refused, otherwise isActive is negated and nothing else
        changes. */
    method ToggleStatus(caller: string, id: string) returns (r: Result<User, HttpError>)
      requires Valid()
      modifies this
      ensures Valid()
      ensures id !in old(users) ==> r == Failure(UserNotFound)
      ensures id in old(users) && id == caller ==> r == Failure(CannotChangeOwnStatus)
      ensures r.Success? <==> id in old(users) && id != caller
      ensures r.Success? ==> users == old(users)[id := old(users)[id].(isActive := !old(users)[id].isActive)]
                             && r.value == Redacted(users[id])
      ensures r.Failure? ==> users == old(users)
    {
      if id !in users {
        return Failure(UserNotFound);
      }
      if id == caller {
        return Failure(CannotChangeOwnStatus);
      }
      var user := users[id];
      var toggled := user.(isActive := !user.isActive);
      assert ValidUsers(users[id := toggled]) by {
        var updated := users[id := toggled];
        forall a, b | a in updated && b in updated && updated[a].username == updated[b].username
          ensures a == b
        {
          assert users[a].username == updated[a].username && users[b].username == updated[b].username;
        }
        forall a, b | a in updated && b in updated && updated[a].email == updated[b].email
          ensures a == b
        {
          assert users[a].email == updated[a].email && users[b].email == updated[b].email;
        }
      }
      users := users[id := toggled];
      r := Success(Redacted(toggled));
    }

    /** Toggling another user's status twice restores the collection. */
    method ToggleTwice(caller: string, id: string)
      requires Valid() && id in users && id != caller
      modifies this
      ensures Valid() && users == old(users)
    {
      var first := ToggleStatus(caller, id);
      var second := ToggleStatus(caller, id);
      assert users[id] == old(users)[id];
    }
  }
}
