/** The authentication routes: leader and member registration through
    e-mail verification, login, the member-status check, and the
    leader's approval, rejection and removal of members. Each route
    handler is a method over the database and the pre-registration
    stores; a handler that answers with an error leaves the committed
    state as it was, except where the source deletes a pre-registration
    on the way out. E-mail sending is an effect with no bearing on the
    state and is not modelled; random tokens, codes and team codes, the
    clock and bcrypt are parameters. */
module Auth {
  import opened Common
  import opened Schema
  import opened PreRegistration

  const PasswordMinLength: nat := 6
  /** Regenerations of a colliding team code after the first candidate. */
  const MaxTeamCodeRetries: nat := 5

  const AllFieldsRequired := "All fields are required"
  const UserAlreadyExists := "User already exists with this email"
  const RegistrationFailed := "Internal server error during registration"
  const UserNotFoundOrProcessed := "User not found or already processed"

  // ---------------------------------------------------------------
  // Password rule
  // ---------------------------------------------------------------

  /** The character class of the password rule. */
  const SpecialCharacters: set<char> := {
    '!', '@', '#', '$', '%', '^', '&', '*', '(', ')', '_', '+', '-', '=',
    '[', ']', '{', '}', ';', '\'', ':', '"', '\\', '|', ',', '.', '<', '>',
    '/', '?'}

  /** Whether the regular-expression test for a special character succeeds. */
  function HasSpecialCharacter(password: string): (r: bool)
    ensures r <==> exists i :: 0 <= i < |password| && password[i] in SpecialCharacters
  {
    if password == [] then false
    else if password[0] in SpecialCharacters then true
    else
      assert forall i :: 1 <= i < |password| ==> password[i] == password[1..][i - 1];
      HasSpecialCharacter(password[1..])
  }

  /** The length JavaScript reports for a string: the number of UTF-16
      code units, two for a character outside the Basic Multilingual
      Plane and one for any other. */
  function Utf16Length(s: string): (n: nat)
    ensures |s| <= n <= 2 * |s|
    ensures (forall i :: 0 <= i < |s| ==> s[i] <= '\U{FFFF}') <==> n == |s|
  {
    if s == [] then 0
    else
      assert forall i :: 1 <= i < |s| ==> s[i] == s[1..][i - 1];
      (if s[0] > '\U{FFFF}' then 2 else 1) + Utf16Length(s[1..])
  }

  datatype PasswordError = TooShort | NoSpecialCharacter

  function PasswordMessage(e: PasswordError): string {
    match e
    case TooShort => "Password must be at least 6 characters long"
    case NoSpecialCharacter => "Password must include at least 1 special character"
  }

  /** The password rule of both sign-up routes: the length, in UTF-16
      code units, is checked first, then the presence of a special
      character. */
  function ValidatePassword(password: string): (r: Option<PasswordError>)
    ensures r == Some(TooShort) <==> Utf16Length(password) < PasswordMinLength
    ensures r == Some(NoSpecialCharacter) <==>
      Utf16Length(password) >= PasswordMinLength && forall i :: 0 <= i < |password| ==> password[i] !in SpecialCharacters
    ensures r == None <==>
      Utf16Length(password) >= PasswordMinLength && exists i :: 0 <= i < |password| && password[i] in SpecialCharacters
  {
    if Utf16Length(password) < PasswordMinLength then Some(TooShort)
    else if !HasSpecialCharacter(password) then Some(NoSpecialCharacter)
    else None
  }

  /** Four characters, three of them outside the Basic Multilingual
      Plane, already make a long enough password. */
  lemma AstralCharactersCountTwice()
    ensures ValidatePassword("\U{1F512}\U{1F512}\U{1F512}!") == None
    ensures ValidatePassword("abcde!") == None
    ensures ValidatePassword("abcd!") == Some(TooShort)
  {
    assert "\U{1F512}\U{1F512}\U{1F512}!"[3] in SpecialCharacters;
    assert "abcde!"[5] in SpecialCharacters;
  }

  // ---------------------------------------------------------------
  // Sign-up: storing a pre-registration
  // ---------------------------------------------------------------

  /** The data a leader's sign-up stores. */
  function LeaderPreReg(email: string, name: string, password: string, teamName: string,
                        numericCode: string, now: int): PreReg
  {
    PreReg(email, name, password, NewTeam(teamName), numericCode, ExpiryFrom(now))
  }

  /** `POST /send-verification`: validates the sign-up of a new leader and
      stores it under a fresh token with a fresh six-digit code. */
  method SendVerification(db: Database, pre: PreRegistrationMap,
                          email: string, name: string, password: string, teamName: string,
                          token: string, numericCode: string, now: int) returns (r: Reply)
    requires pre.Valid() && IsSixDigitCode(numericCode)
    modifies pre
    ensures pre.Valid()
    ensures email == "" || name == "" || password == "" || teamName == "" ==>
      r == Error(400, AllFieldsRequired)
    ensures email != "" && name != "" && password != "" && teamName != "" ==>
      match ValidatePassword(password)
      case Some(e) => r == Error(400, PasswordMessage(e))
      case None =>
        if HasUserWithEmail(db.users, email) then r == Error(400, "Email already registered")
        else r == Ok
    ensures r.Ok? ==>
      pre.entries == Put(old(pre.entries), token, LeaderPreReg(email, name, password, teamName, numericCode, now))
    ensures !r.Ok? ==> pre.entries == old(pre.entries)
  {
    if email == "" || name == "" || password == "" || teamName == "" {
      return Error(400, AllFieldsRequired);
    }
    var passwordError := ValidatePassword(password);
    if passwordError.Some? {
      return Error(400, PasswordMessage(passwordError.value));
    }
    if HasUserWithEmail(db.users, email) {
      return Error(400, "Email already registered");
    }
    pre.Set(token, LeaderPreReg(email, name, password, teamName, numericCode, now));
    r := Ok;
  }

  /** The member store only ever holds sign-ups that join an existing team. */
  ghost predicate JoinsTeams(pre: PreRegistrationMap)
    reads pre
  {
    forall i :: 0 <= i < |pre.entries| ==> pre.entries[i].data.team.JoinTeam?
  }

  /** `POST /send-member-verification`: validates the sign-up of a member
      for an existing team and stores it under a fresh token. */
  method SendMemberVerification(db: Database, memberPre: PreRegistrationMap,
                                email: string, name: string, password: string, teamCode: TeamCode,
                                token: string, numericCode: string, now: int) returns (r: Reply)
    requires memberPre.Valid() && JoinsTeams(memberPre) && IsSixDigitCode(numericCode)
    modifies memberPre
    ensures memberPre.Valid() && JoinsTeams(memberPre)
    ensures email == "" || name == "" || password == "" || teamCode == "" ==>
      r == Error(400, AllFieldsRequired)
    ensures email != "" && name != "" && password != "" && teamCode != "" ==>
      match ValidatePassword(password)
      case Some(e) => r == Error(400, PasswordMessage(e))
      case None =>
        if !HasTeam(db.teams, teamCode) then r == Error(400, "Invalid team code")
        else if HasUserWithEmail(db.users, email) then r == Error(400, UserAlreadyExists)
        else r == Ok
    ensures r.Ok? ==>
      var team := FindTeam(db.teams, teamCode).value;
      memberPre.entries == Put(old(memberPre.entries), token,
        PreReg(email, name, password, JoinTeam(teamCode, team.teamName), numericCode, ExpiryFrom(now)))
    ensures !r.Ok? ==> memberPre.entries == old(memberPre.entries)
  {
    if email == "" || name == "" || password == "" || teamCode == "" {
      return Error(400, AllFieldsRequired);
    }
    var passwordError := ValidatePassword(password);
    if passwordError.Some? {
      return Error(400, PasswordMessage(passwordError.value));
    }
    var team := FindTeam(db.teams, teamCode);
    if team.None? {
      return Error(400, "Invalid team code");
    }
    if HasUserWithEmail(db.users, email) {
      return Error(400, UserAlreadyExists);
    }
    var data := PreReg(email, name, password, JoinTeam(teamCode, team.value.teamName), numericCode, ExpiryFrom(now));
    ghost var before := memberPre.entries;
    memberPre.Set(token, data);
    forall i | 0 <= i < |memberPre.entries|
      ensures memberPre.entries[i].data.team.JoinTeam?
    {
      var k := IndexOf(before, token);
      if k < 0 {
        assert memberPre.entries == before + [Entry(token, data)];
        if i < |before| {
          assert memberPre.entries[i] == before[i];
        }
      }
    }
    r := Ok;
  }

  // ---------------------------------------------------------------
  // Team-code collision retry
  // ---------------------------------------------------------------

  /** The first `n` candidate codes are all in use. */
  ghost predicate AllTaken(teams: seq<Team>, candidates: seq<TeamCode>, n: nat)
    requires n <= |candidates|
  {
    forall k :: 0 <= k < n ==> HasTeam(teams, candidates[k])
  }

  /** `code` is what the retry loop settles on for these candidates: the
      first one not in use, among the initial code and at most
      `MaxTeamCodeRetries` regenerations. */
  ghost predicate ChosenCode(teams: seq<Team>, candidates: seq<TeamCode>, code: TeamCode)
    requires |candidates| > MaxTeamCodeRetries
  {
    exists n :: 0 <= n <= MaxTeamCodeRetries
      && AllTaken(teams, candidates, n) && candidates[n] == code && !HasTeam(teams, code)
  }

  /** The loop of both leader-verification routes: while the current
      candidate is in use and fewer than five regenerations were made,
      take the next generated code. `regenerated` stands for the codes
      that `generateTeamCode` would produce. */
  method ResolveTeamCode(teams: seq<Team>, first: TeamCode, regenerated: seq<TeamCode>)
      returns (code: Option<TeamCode>, attempts: nat)
    requires |regenerated| >= MaxTeamCodeRetries
    ensures attempts <= MaxTeamCodeRetries
    ensures AllTaken(teams, [first] + regenerated, attempts)
    ensures code.Some? ==> code.value == ([first] + regenerated)[attempts] && !HasTeam(teams, code.value)
    ensures code.None? ==> attempts == MaxTeamCodeRetries && HasTeam(teams, ([first] + regenerated)[attempts])
  {
    var candidates := [first] + regenerated;
    var finalCode := first;
    var teamExists := FindTeam(teams, finalCode).Some?;
    attempts := 0;
    while teamExists && attempts < MaxTeamCodeRetries
      invariant attempts <= MaxTeamCodeRetries
      invariant finalCode == candidates[attempts]
      invariant teamExists == HasTeam(teams, finalCode)
      invariant AllTaken(teams, candidates, attempts)
    {
      finalCode := regenerated[attempts];
      teamExists := FindTeam(teams, finalCode).Some?;
      attempts := attempts + 1;
    }
    code := if teamExists then None else Some(finalCode);
  }

  // ---------------------------------------------------------------
  // Verification: creating the user
  // ---------------------------------------------------------------

  /** The row a verified leader becomes. */
  function LeaderRow(id: UserId, data: PreReg, hashedPassword: string, code: TeamCode): (u: User)
    ensures u.role == Leader && u.status == Approved && u.emailVerified
  {
    User(id, data.email, hashedPassword, data.name, Leader, code, Approved, true, None, None, None, None)
  }

  /** The row a verified member becomes: pending the leader's approval. */
  function MemberRow(id: UserId, data: PreReg, hashedPassword: string): (u: User)
    requires data.team.JoinTeam?
    ensures u.role == Member && u.status == Pending && u.emailVerified && u.teamCode == data.team.teamCode
  {
    User(id, data.email, hashedPassword, data.name, Member, data.team.teamCode, Pending, true, None, None, None, None)
  }

  /** Appending an account with the next id and an unused e-mail keeps the
      user invariants, provided a leader's account is approved. */
  lemma AddUserKeepsUsersValid(users: seq<User>, u: User, nextUserId: UserId)
    requires UsersValid(users, nextUserId)
    requires u.id == nextUserId && !HasUserWithEmail(users, u.email)
    requires u.role == Leader ==> u.status == Approved
    ensures UsersValid(users + [u], nextUserId + 1)
  {
    AppendKeepsUnique(users, u, UserIdOf);
    AppendKeepsUnique(users, u, EmailOf);
  }

  /** The state change a successful leader registration commits. */
  ghost predicate LeaderCreated(usersBefore: seq<User>, teamsBefore: seq<Team>, id: UserId,
                                usersAfter: seq<User>, teamsAfter: seq<Team>,
                                data: PreReg, hashedPassword: string, code: TeamCode)
  {
    && usersAfter == usersBefore + [LeaderRow(id, data, hashedPassword, code)]
    && teamsAfter == teamsBefore + [Team(code, data.team.teamName, Some(id))]
  }

  /** The part both leader-verification routes share once they hold the
      pre-registration `data` under `token`: the final e-mail check, the
      team-code loop and the transaction that inserts the team and its
      leader. A failed transaction rolls back and keeps the token. */
  method CompleteLeaderRegistration(db: Database, pre: PreRegistrationMap, token: string, data: PreReg,
                                    hashedPassword: string, first: TeamCode, regenerated: seq<TeamCode>)
      returns (r: Reply, code: Option<TeamCode>)
    requires db.Valid() && pre.Valid()
    requires |regenerated| >= MaxTeamCodeRetries
    modifies db, pre
    ensures db.Valid() && pre.Valid()
    ensures HasUserWithEmail(old(db.users), data.email) ==>
      && r == Error(400, UserAlreadyExists)
      && unchanged(db) && pre.entries == Remove(old(pre.entries), token)
    ensures !HasUserWithEmail(old(db.users), data.email) && AllTaken(old(db.teams), [first] + regenerated, MaxTeamCodeRetries + 1) ==>
      && r == Error(500, RegistrationFailed)
      && unchanged(db) && unchanged(pre)
    ensures r.Ok? <==>
      !HasUserWithEmail(old(db.users), data.email) && !AllTaken(old(db.teams), [first] + regenerated, MaxTeamCodeRetries + 1)
    ensures r.Ok? ==>
      && code.Some? && ChosenCode(old(db.teams), [first] + regenerated, code.value)
      && LeaderCreated(old(db.users), old(db.teams), old(db.nextUserId), db.users, db.teams, data, hashedPassword, code.value)
      && db.nextUserId == old(db.nextUserId) + 1
      && db.tasks == old(db.tasks) && db.subtasks == old(db.subtasks)
      && db.nextTaskId == old(db.nextTaskId) && db.nextSubtaskId == old(db.nextSubtaskId)
      && pre.entries == Remove(old(pre.entries), token)
  {
    code := None;
    if HasUserWithEmail(db.users, data.email) {
      pre.Delete(token);
      r := Error(400, UserAlreadyExists);
      return;
    }
    var attempts;
    code, attempts := ResolveTeamCode(db.teams, first, regenerated);
    ghost var candidates := [first] + regenerated;
    if code.None? {
      assert AllTaken(db.teams, candidates, MaxTeamCodeRetries + 1);
      r := Error(500, RegistrationFailed);
      return;
    }
    assert !AllTaken(db.teams, candidates, MaxTeamCodeRetries + 1) by {
      assert !HasTeam(db.teams, candidates[attempts]);
    }
    var id := db.nextUserId;
    var leader := LeaderRow(id, data, hashedPassword, code.value);
    var team := Team(code.value, data.team.teamName, Some(id));
    AddUserKeepsUsersValid(db.users, leader, db.nextUserId);
    AppendKeepsUnique(db.teams, team, TeamCodeOf);
    db.teams := db.teams + [team];
    db.users := db.users + [leader];
    db.nextUserId := db.nextUserId + 1;
    pre.Delete(token);
    r := Ok;
  }

  /** `POST /verify-email`: a leader's verification by token. */
  method VerifyEmail(db: Database, pre: PreRegistrationMap, token: string, now: int,
                     hashedPassword: string, first: TeamCode, regenerated: seq<TeamCode>)
      returns (r: Reply, code: Option<TeamCode>)
    requires db.Valid() && pre.Valid()
    requires |regenerated| >= MaxTeamCodeRetries
    modifies db, pre
    ensures db.Valid() && pre.Valid()
    ensures token == "" ==> r == Error(400, "Verification token is required") && unchanged(db) && unchanged(pre)
    ensures token != "" && old(pre.Get(token)).None? ==>
      r == Error(400, "Invalid or expired verification token") && unchanged(db) && unchanged(pre)
    ensures token != "" && old(pre.Get(token)).Some? && now > old(pre.Get(token)).value.expires ==>
      && r == Error(400, "Verification token has expired")
      && unchanged(db) && pre.entries == Remove(old(pre.entries), token)
    ensures token != "" && old(pre.Get(token)).Some? && now <= old(pre.Get(token)).value.expires ==>
      var data := old(pre.Get(token)).value;
      && (HasUserWithEmail(old(db.users), data.email) ==>
            r == Error(400, UserAlreadyExists) && unchanged(db) && pre.entries == Remove(old(pre.entries), token))
      && (!HasUserWithEmail(old(db.users), data.email) && AllTaken(old(db.teams), [first] + regenerated, MaxTeamCodeRetries + 1) ==>
            r == Error(500, RegistrationFailed) && unchanged(db) && unchanged(pre))
      && (r.Ok? <==>
            !HasUserWithEmail(old(db.users), data.email) && !AllTaken(old(db.teams), [first] + regenerated, MaxTeamCodeRetries + 1))
    ensures r.Ok? ==>
      && token != "" && old(pre.Get(token)).Some?
      && var data := old(pre.Get(token)).value;
      && now <= data.expires
      && !HasUserWithEmail(old(db.users), data.email)
      && code.Some? && ChosenCode(old(db.teams), [first] + regenerated, code.value)
      && LeaderCreated(old(db.users), old(db.teams), old(db.nextUserId), db.users, db.teams, data, hashedPassword, code.value)
      && pre.entries == Remove(old(pre.entries), token)
    ensures !r.Ok? ==> db.users == old(db.users) && db.teams == old(db.teams)
    ensures db.tasks == old(db.tasks) && db.subtasks == old(db.subtasks)
  {
    code := None;
    if token == "" {
      r := Error(400, "Verification token is required");
      return;
    }
    var entry := pre.Get(token);
    if entry.None? {
      r := Error(400, "Invalid or expired verification token");
      return;
    }
    if now > entry.value.expires {
      pre.Delete(token);
      r := Error(400, "Verification token has expired");
      return;
    }
    r, code := CompleteLeaderRegistration(db, pre, token, entry.value, hashedPassword, first, regenerated);
  }

  /** `POST /verify-email-code`: a leader's verification by the six-digit
      code. A malformed code is refused before the store is searched; the
      search deletes the expired entries carrying the code that it passes. */
  method VerifyEmailCode(db: Database, pre: PreRegistrationMap, codeText: string, now: int,
                         hashedPassword: string, first: TeamCode, regenerated: seq<TeamCode>)
      returns (r: Reply, code: Option<TeamCode>)
    requires db.Valid() && pre.Valid()
    requires |regenerated| >= MaxTeamCodeRetries
    modifies db, pre
    ensures db.Valid() && pre.Valid()
    ensures codeText == "" ==> r == Error(400, "Verification code is required") && unchanged(db) && unchanged(pre)
    ensures codeText != "" && !IsSixDigitCode(codeText) ==>
      r == Error(400, "Invalid verification code format") && unchanged(db) && unchanged(pre)
    ensures IsSixDigitCode(codeText) && FirstLiveMatch(old(pre.entries), codeText, now) == |old(pre.entries)| ==>
      && r == Error(400, "Invalid or expired verification code")
      && unchanged(db) && pre.entries == SweepCode(old(pre.entries), codeText, now)
    ensures IsSixDigitCode(codeText) && FirstLiveMatch(old(pre.entries), codeText, now) < |old(pre.entries)| ==>
      var j := FirstLiveMatch(old(pre.entries), codeText, now);
      var e := old(pre.entries)[j];
      var swept := SweepCode(old(pre.entries)[..j], codeText, now) + old(pre.entries)[j..];
      && (HasUserWithEmail(old(db.users), e.data.email) ==>
            r == Error(400, UserAlreadyExists) && unchanged(db) && pre.entries == Remove(swept, e.token))
      && (!HasUserWithEmail(old(db.users), e.data.email) && AllTaken(old(db.teams), [first] + regenerated, MaxTeamCodeRetries + 1) ==>
            r == Error(500, RegistrationFailed) && unchanged(db) && pre.entries == swept)
      && (r.Ok? <==>
            !HasUserWithEmail(old(db.users), e.data.email) && !AllTaken(old(db.teams), [first] + regenerated, MaxTeamCodeRetries + 1))
    ensures r.Ok? ==> IsSixDigitCode(codeText)
    ensures r.Ok? ==>
      var j := FirstLiveMatch(old(pre.entries), codeText, now);
      && j < |old(pre.entries)|
      && var e := old(pre.entries)[j];
      && !HasUserWithEmail(old(db.users), e.data.email)
      && code.Some? && ChosenCode(old(db.teams), [first] + regenerated, code.value)
      && LeaderCreated(old(db.users), old(db.teams), old(db.nextUserId), db.users, db.teams, e.data, hashedPassword, code.value)
      && pre.entries == Remove(SweepCode(old(pre.entries)[..j], codeText, now) + old(pre.entries)[j..], e.token)
    ensures !r.Ok? ==> db.users == old(db.users) && db.teams == old(db.teams)
    ensures db.tasks == old(db.tasks) && db.subtasks == old(db.subtasks)
  {
    code := None;
    if codeText == "" {
      r := Error(400, "Verification code is required");
    } else if |codeText| != 6 || exists i :: 0 <= i < |codeText| && !IsDigit(codeText[i]) {
      r := Error(400, "Invalid verification code format");
    } else {
      var found := pre.FindByCode(codeText, now);
      if found.None? {
        assert old(pre.entries)[..|old(pre.entries)|] == old(pre.entries);
        r := Error(400, "Invalid or expired verification code");
      } else {
        r, code := CompleteLeaderRegistration(db, pre, found.value.token, found.value.data, hashedPassword, first, regenerated);
      }
    }
  }

  /** `POST /verify-member-email`: a member's verification by token; the
      new member waits for approval. */
  method VerifyMemberEmail(db: Database, memberPre: PreRegistrationMap, token: string, now: int,
                           hashedPassword: string) returns (r: Reply)
    requires db.Valid() && memberPre.Valid() && JoinsTeams(memberPre)
    modifies db, memberPre
    ensures db.Valid() && memberPre.Valid() && JoinsTeams(memberPre)
    ensures token == "" ==> r == Error(400, "Verification token is required") && unchanged(db) && unchanged(memberPre)
    ensures token != "" && old(memberPre.Get(token)).None? ==>
      r == Error(400, "Invalid or expired verification token") && unchanged(db) && unchanged(memberPre)
    ensures token != "" && old(memberPre.Get(token)).Some? && now > old(memberPre.Get(token)).value.expires ==>
      && r == Error(400, "Verification token has expired")
      && unchanged(db) && memberPre.entries == Remove(old(memberPre.entries), token)
    ensures token != "" && old(memberPre.Get(token)).Some? && now <= old(memberPre.Get(token)).value.expires ==>
      var data := old(memberPre.Get(token)).value;
      && memberPre.entries == Remove(old(memberPre.entries), token)
      && if HasUserWithEmail(old(db.users), data.email) then
           r == Error(400, UserAlreadyExists) && unchanged(db)
         else
           && r == Ok
           && data.team.JoinTeam?
           && db.users == old(db.users) + [MemberRow(old(db.nextUserId), data, hashedPassword)]
           && db.nextUserId == old(db.nextUserId) + 1
    ensures db.teams == old(db.teams) && db.tasks == old(db.tasks) && db.subtasks == old(db.subtasks)
  {
    if token == "" {
      r := Error(400, "Verification token is required");
    } else {
      var entry := memberPre.Get(token);
      if entry.None? {
        r := Error(400, "Invalid or expired verification token");
      } else {
        var data := entry.value;
        if now > data.expires {
          r := Error(400, "Verification token has expired");
        } else if HasUserWithEmail(db.users, data.email) {
          r := Error(400, UserAlreadyExists);
        } else {
          var member := MemberRow(db.nextUserId, data, hashedPassword);
          AddUserKeepsUsersValid(db.users, member, db.nextUserId);
          db.users := db.users + [member];
          db.nextUserId := db.nextUserId + 1;
          r := Ok;
        }
        memberPre.Delete(token);
      }
    }
  }

  // ---------------------------------------------------------------
  // Login and status check
  // ---------------------------------------------------------------

  datatype LoginResult = LoggedIn(user: User) | LoginRefused(status: int, message: string)

  /** `POST /login`. `compare` stands for bcrypt's comparison of the
      submitted password with the stored hash. Only a member whose status
      is pending or rejected is turned away once the password matches. */
  function Login(users: seq<User>, email: string, password: string, teamCode: TeamCode,
                 compare: (string, string) -> bool): (r: LoginResult)
    ensures email == "" || password == "" || teamCode == "" ==> r == LoginRefused(400, AllFieldsRequired)
    ensures r.LoggedIn? ==>
      && r.user in users && r.user.email == email && r.user.teamCode == teamCode
      && compare(password, r.user.password)
      && (r.user.role == Member ==> r.user.status != Pending && r.user.status != Rejected)
    ensures email != "" && password != "" && teamCode != "" ==>
      match FindByEmailAndTeam(users, email, teamCode)
      case None => r == LoginRefused(401, "Invalid email, password, or team code")
      case Some(u) =>
        if !compare(password, u.password) then r == LoginRefused(401, "Invalid email, password, or team code")
        else if u.role == Member && u.status == Pending then r.LoginRefused? && r.status == 403
        else if u.role == Member && u.status == Rejected then r.LoginRefused? && r.status == 403
        else r == LoggedIn(u)
  {
    if email == "" || password == "" || teamCode == "" then LoginRefused(400, AllFieldsRequired)
    else match FindByEmailAndTeam(users, email, teamCode)
      case None => LoginRefused(401, "Invalid email, password, or team code")
      case Some(u) =>
        if !compare(password, u.password) then LoginRefused(401, "Invalid email, password, or team code")
        else if u.role == Member && u.status == Pending then
          LoginRefused(403, "Your membership is pending approval from the team leader")
        else if u.role == Member && u.status == Rejected then
          LoginRefused(403, "Your membership request was rejected. Please contact your team leader.")
        else LoggedIn(u)
  }

  /** What `POST /check-member-status` answers. */
  datatype StatusReport =
    | MissingFields
    | NoAccount
    | Report(canLogin: bool, status: MemberStatus, role: Option<Role>)

  /** `POST /check-member-status`: leaders can always log in; a member can
      only with a verified e-mail and an approved status. */
  function CheckMemberStatus(users: seq<User>, email: string, teamCode: TeamCode): (r: StatusReport)
    ensures r == MissingFields <==> email == "" || teamCode == ""
    ensures r == NoAccount <==>
      email != "" && teamCode != "" && FindByEmailAndTeam(users, email, teamCode).None?
    ensures r.Report? ==>
      var u := FindByEmailAndTeam(users, email, teamCode).value;
      && (r.canLogin <==> u.role == Leader || (u.emailVerified && u.status == Approved))
      && (r.canLogin <==> r.status == Approved)
      && (u.role == Member && !u.emailVerified ==> r.status == Unverified)
      && (u.role == Member && u.emailVerified ==> r.status == u.status)
      && (u.role == Leader ==> r.status == Approved)
      && r.role == (if r.canLogin then Some(u.role) else None)
  {
    if email == "" || teamCode == "" then MissingFields
    else match FindByEmailAndTeam(users, email, teamCode)
      case None => NoAccount
      case Some(u) =>
        if u.role == Leader then Report(true, Approved, Some(Leader))
        else if !u.emailVerified then Report(false, Unverified, None)
        else match u.status
          case Pending => Report(false, Pending, None)
          case Rejected => Report(false, Rejected, None)
          case Approved => Report(true, Approved, Some(Member))
          case Unverified => Report(false, Unverified, None)
  }

  /** For an account with a verified e-mail and one of the three statuses
      the approval routes produce, whose password matches, login succeeds
      exactly when the status check says it can. */
  lemma LoginAgreesWithStatusCheck(users: seq<User>, email: string, password: string, teamCode: TeamCode,
                                   compare: (string, string) -> bool)
    requires email != "" && password != "" && teamCode != ""
    requires FindByEmailAndTeam(users, email, teamCode).Some?
    requires var u := FindByEmailAndTeam(users, email, teamCode).value;
      u.emailVerified && u.status != Unverified && compare(password, u.password)
    ensures Login(users, email, password, teamCode, compare).LoggedIn? <==>
            CheckMemberStatus(users, email, teamCode).canLogin
  {
  }

  /** A member whose e-mail is not verified but whose status is neither
      pending nor rejected logs in with a matching password, although the
      status check says that member cannot. */
  lemma UnverifiedMemberLogsIn(users: seq<User>, email: string, password: string, teamCode: TeamCode,
                               compare: (string, string) -> bool)
    requires email != "" && password != "" && teamCode != ""
    requires FindByEmailAndTeam(users, email, teamCode).Some?
    requires var u := FindByEmailAndTeam(users, email, teamCode).value;
      u.role == Member && !u.emailVerified && (u.status == Approved || u.status == Unverified)
      && compare(password, u.password)
    ensures Login(users, email, password, teamCode, compare).LoggedIn?
    ensures !CheckMemberStatus(users, email, teamCode).canLogin
  {
  }

  // ---------------------------------------------------------------
  // Approval state machine
  // ---------------------------------------------------------------

  /** The `WHERE id = $3 AND team_code = $4 AND role = 'member'` of the
      approve and reject routes. */
  predicate IsTeamMember(u: User, id: UserId, teamCode: TeamCode) {
    u.id == id && u.teamCode == teamCode && u.role == Member
  }

  predicate HasTeamMember(users: seq<User>, id: UserId, teamCode: TeamCode) {
    exists i :: 0 <= i < |users| && IsTeamMember(users[i], id, teamCode)
  }

  predicate IsRejectedTeamMember(u: User, id: UserId, teamCode: TeamCode) {
    IsTeamMember(u, id, teamCode) && u.status == Rejected
  }

  function ApprovedRow(u: User, actor: UserId, now: int): User {
    u.(status := Approved, approvedBy := Some(actor), approvedAt := Some(now))
  }

  function RejectedRow(u: User, actor: UserId, now: int): User {
    u.(status := Rejected, rejectedBy := Some(actor), rejectedAt := Some(now))
  }

  function ReapprovedRow(u: User, actor: UserId, now: int): User {
    u.(status := Approved, approvedBy := Some(actor), approvedAt := Some(now), rejectedBy := None, rejectedAt := None)
  }

  /** A per-row rewrite of `users` that keeps ids, e-mails and roles and
      touches no leader keeps the user invariants. */
  lemma RewriteKeepsUserInvariants(before: seq<User>, after: seq<User>, nextUserId: UserId)
    requires UsersValid(before, nextUserId)
    requires |after| == |before|
    requires forall i :: 0 <= i < |before| ==>
      && after[i].id == before[i].id && after[i].email == before[i].email && after[i].role == before[i].role
      && (before[i].role == Leader ==> after[i] == before[i])
    ensures UsersValid(after, nextUserId)
  {
    forall i, j | 0 <= i < j < |after|
      ensures UserIdOf(after[i]) != UserIdOf(after[j]) && EmailOf(after[i]) != EmailOf(after[j])
    {
      assert UserIdOf(before[i]) != UserIdOf(before[j]);
      assert EmailOf(before[i]) != EmailOf(before[j]);
    }
  }

  /** `POST /approve-member`: approves the member with this id in this
      team, whatever its current status; anything else is a 404. */
  method ApproveMember(db: Database, userId: Option<UserId>, teamCode: TeamCode,
                       approvedBy: Option<UserId>, now: int) returns (r: Reply)
    requires db.Valid()
    modifies db
    ensures db.Valid()
    ensures !Present(userId) || teamCode == "" || !Present(approvedBy) ==> r == Error(400, AllFieldsRequired)
    ensures Present(userId) && teamCode != "" && Present(approvedBy) ==>
      if HasTeamMember(old(db.users), userId.value, teamCode) then r == Ok
      else r == Error(404, UserNotFoundOrProcessed)
    ensures !r.Ok? ==> unchanged(db)
    ensures r.Ok? ==>
      && |db.users| == |old(db.users)|
      && forall i :: 0 <= i < |db.users| ==>
           db.users[i] == if IsTeamMember(old(db.users)[i], userId.value, teamCode)
                          then ApprovedRow(old(db.users)[i], approvedBy.value, now)
                          else old(db.users)[i]
    ensures db.teams == old(db.teams) && db.tasks == old(db.tasks) && db.subtasks == old(db.subtasks)
    ensures db.nextUserId == old(db.nextUserId)
  {
    if !Present(userId) || teamCode == "" || !Present(approvedBy) {
      return Error(400, AllFieldsRequired);
    }
    var id, actor := userId.value, approvedBy.value;
    if !HasTeamMember(db.users, id, teamCode) {
      return Error(404, UserNotFoundOrProcessed);
    }
    var us := db.users;
    var updated := seq(|us|, i requires 0 <= i < |us| =>
      if IsTeamMember(us[i], id, teamCode) then ApprovedRow(us[i], actor, now) else us[i]);
    RewriteKeepsUserInvariants(us, updated, db.nextUserId);
    db.users := updated;
    r := Ok;
  }

  /** `POST /reject-member`: rejects the member with this id in this team,
      whatever its current status; anything else is a 404. */
  method RejectMember(db: Database, userId: Option<UserId>, teamCode: TeamCode,
                      rejectedBy: Option<UserId>, now: int) returns (r: Reply)
    requires db.Valid()
    modifies db
    ensures db.Valid()
    ensures !Present(userId) || teamCode == "" || !Present(rejectedBy) ==> r == Error(400, AllFieldsRequired)
    ensures Present(userId) && teamCode != "" && Present(rejectedBy) ==>
      if HasTeamMember(old(db.users), userId.value, teamCode) then r == Ok
      else r == Error(404, UserNotFoundOrProcessed)
    ensures !r.Ok? ==> unchanged(db)
    ensures r.Ok? ==>
      && |db.users| == |old(db.users)|
      && forall i :: 0 <= i < |db.users| ==>
           db.users[i] == if IsTeamMember(old(db.users)[i], userId.value, teamCode)
                          then RejectedRow(old(db.users)[i], rejectedBy.value, now)
                          else old(db.users)[i]
    ensures db.teams == old(db.teams) && db.tasks == old(db.tasks) && db.subtasks == old(db.subtasks)
    ensures db.nextUserId == old(db.nextUserId)
  {
    if !Present(userId) || teamCode == "" || !Present(rejectedBy) {
      return Error(400, AllFieldsRequired);
    }
    var id, actor := userId.value, rejectedBy.value;
    if !HasTeamMember(db.users, id, teamCode) {
      return Error(404, UserNotFoundOrProcessed);
    }
    var us := db.users;
    var updated := seq(|us|, i requires 0 <= i < |us| =>
      if IsTeamMember(us[i], id, teamCode) then RejectedRow(us[i], actor, now) else us[i]);
    RewriteKeepsUserInvariants(us, updated, db.nextUserId);
    db.users := updated;
    r := Ok;
  }

  /** `POST /approve-rejected-member`: approves again a member of this team
      whose status is rejected, clearing the rejection. */
  method ApproveRejectedMember(db: Database, userId: Option<UserId>, teamCode: TeamCode,
                               approvedBy: Option<UserId>, now: int) returns (r: Reply)
    requires db.Valid()
    modifies db
    ensures db.Valid()
    ensures !Present(userId) || teamCode == "" || !Present(approvedBy) ==> r == Error(400, AllFieldsRequired)
    ensures Present(userId) && teamCode != "" && Present(approvedBy) ==>
      if exists i :: 0 <= i < |old(db.users)| && IsRejectedTeamMember(old(db.users)[i], userId.value, teamCode)
      then r == Ok
      else r == Error(404, "Rejected member not found or already processed")
    ensures !r.Ok? ==> unchanged(db)
    ensures r.Ok? ==>
      && |db.users| == |old(db.users)|
      && forall i :: 0 <= i < |db.users| ==>
           db.users[i] == if IsRejectedTeamMember(old(db.users)[i], userId.value, teamCode)
                          then ReapprovedRow(old(db.users)[i], approvedBy.value, now)
                          else old(db.users)[i]
    ensures db.teams == old(db.teams) && db.tasks == old(db.tasks) && db.subtasks == old(db.subtasks)
    ensures db.nextUserId == old(db.nextUserId)
  {
    if !Present(userId) || teamCode == "" || !Present(approvedBy) {
      return Error(400, AllFieldsRequired);
    }
    var id, actor := userId.value, approvedBy.value;
    if !exists i :: 0 <= i < |db.users| && IsRejectedTeamMember(db.users[i], id, teamCode) {
      return Error(404, "Rejected member not found or already processed");
    }
    var us := db.users;
    var updated := seq(|us|, i requires 0 <= i < |us| =>
      if IsRejectedTeamMember(us[i], id, teamCode) then ReapprovedRow(us[i], actor, now) else us[i]);
    RewriteKeepsUserInvariants(us, updated, db.nextUserId);
    db.users := updated;
    r := Ok;
  }

  /** The rows `DELETE FROM users WHERE id = $1 AND status = 'rejected'
      AND role = 'member'` removes. */
  predicate IsRejectedMember(u: User, id: UserId) {
    u.id == id && u.status == Rejected && u.role == Member
  }

  function WithoutRejectedMember(users: seq<User>, id: UserId): seq<User> {
    Filter(users, (u: User) => !IsRejectedMember(u, id))
  }

  function WithoutUser(users: seq<User>, id: UserId): seq<User> {
    Filter(users, (u: User) => u.id != id)
  }

  /** Deleting user rows keeps the user invariants. */
  lemma DeleteKeepsUserInvariants(before: seq<User>, p: User -> bool, nextUserId: UserId)
    requires UsersValid(before, nextUserId)
    ensures UsersValid(Filter(before, p), nextUserId)
  {
    FilterKeepsUnique(before, p, UserIdOf);
    FilterKeepsUnique(before, p, EmailOf);
    FilterMembers(before, p);
  }

  /** `DELETE /delete-rejected-member/:userId`: removes a member only if
      that member is rejected; nothing else is touched. */
  method DeleteRejectedMember(db: Database, userId: UserId) returns (r: Reply)
    requires db.Valid()
    modifies db
    ensures db.Valid()
    ensures r.Ok? <==> exists i :: 0 <= i < |old(db.users)| && IsRejectedMember(old(db.users)[i], userId)
    ensures !r.Ok? ==> r == Error(404, "Rejected member not found") && unchanged(db)
    ensures r.Ok? ==> db.users == WithoutRejectedMember(old(db.users), userId)
    ensures forall u: User :: u in db.users <==> u in old(db.users) && !(r.Ok? && IsRejectedMember(u, userId))
    ensures db.teams == old(db.teams) && db.tasks == old(db.tasks) && db.subtasks == old(db.subtasks)
    ensures db.nextUserId == old(db.nextUserId)
  {
    if !exists i :: 0 <= i < |db.users| && IsRejectedMember(db.users[i], userId) {
      return Error(404, "Rejected member not found");
    }
    DeleteKeepsUserInvariants(db.users, (u: User) => !IsRejectedMember(u, userId), db.nextUserId);
    FilterMembers(db.users, (u: User) => !IsRejectedMember(u, userId));
    db.users := WithoutRejectedMember(db.users, userId);
    r := Ok;
  }

  predicate IsTeamLeader(users: seq<User>, id: UserId, teamCode: TeamCode) {
    exists i :: 0 <= i < |users| && users[i].id == id && users[i].teamCode == teamCode && users[i].role == Leader
  }

  /** The subtask after its assignee is removed: unassigned and available,
      with its progress left as it was. */
  function UnassignedRow(s: Subtask): (t: Subtask)
    ensures t.assignedTo == None && t.status == Available
    ensures t.progress == s.progress && t.id == s.id && t.taskId == s.taskId
    ensures t.title == s.title && t.description == s.description
    ensures AssignmentConsistent(t)
  {
    s.(assignedTo := None, status := Available)
  }

  /** `DELETE /team/:teamCode/member/:memberId`: a team leader removes a
      member of the team; every subtask assigned to the member goes back
      to available, and the member's row is deleted. */
  method DeleteTeamMember(db: Database, teamCode: TeamCode, memberId: UserId, leaderId: Option<UserId>)
      returns (r: Reply)
    requires db.Valid()
    modifies db
    ensures db.Valid()
    ensures !Present(leaderId) ==> r == Error(400, "Leader ID is required")
    ensures Present(leaderId) ==>
      if !IsTeamLeader(old(db.users), leaderId.value, teamCode) then r == Error(403, "Only team leader can delete members")
      else if memberId == leaderId.value then r == Error(400, "Cannot delete yourself")
      else if !HasTeamMember(old(db.users), memberId, teamCode) then r == Error(404, "Member not found in your team")
      else r == Ok
    ensures !r.Ok? ==> unchanged(db)
    ensures r.Ok? ==>
      && db.users == WithoutUser(old(db.users), memberId)
      && |db.subtasks| == |old(db.subtasks)|
      && (forall i :: 0 <= i < |db.subtasks| ==>
            db.subtasks[i] == if old(db.subtasks)[i].assignedTo == Some(memberId)
                              then UnassignedRow(old(db.subtasks)[i])
                              else old(db.subtasks)[i])
      && db.teams == old(db.teams) && db.tasks == old(db.tasks)
      && db.nextUserId == old(db.nextUserId) && db.nextTaskId == old(db.nextTaskId)
      && db.nextSubtaskId == old(db.nextSubtaskId)
  {
    if !Present(leaderId) {
      return Error(400, "Leader ID is required");
    }
    if !IsTeamLeader(db.users, leaderId.value, teamCode) {
      return Error(403, "Only team leader can delete members");
    }
    if memberId == leaderId.value {
      return Error(400, "Cannot delete yourself");
    }
    if !HasTeamMember(db.users, memberId, teamCode) {
      return Error(404, "Member not found in your team");
    }
    var ss := db.subtasks;
    var released := seq(|ss|, i requires 0 <= i < |ss| =>
      if ss[i].assignedTo == Some(memberId) then UnassignedRow(ss[i]) else ss[i]);
    RewriteKeepsWorkValid(db.tasks, ss, released, db.nextTaskId, db.nextSubtaskId);
    DeleteKeepsUserInvariants(db.users, (u: User) => u.id != memberId, db.nextUserId);
    db.subtasks := released;
    db.users := WithoutUser(db.users, memberId);
    r := Ok;
  }

  // ---------------------------------------------------------------
  // Cross-route properties
  // ---------------------------------------------------------------

  /** A verification token creates at most one user: once a verification
      by token succeeds, a second one with the same token is refused and
      the only user added is the leader of the first. */
  method TokenIsSingleUse(db: Database, pre: PreRegistrationMap, token: string, now: int, later: int,
                          hashedPassword: string, first: TeamCode, regenerated: seq<TeamCode>)
      returns (r1: Reply, r2: Reply, code: Option<TeamCode>)
    requires db.Valid() && pre.Valid()
    requires |regenerated| >= MaxTeamCodeRetries
    modifies db, pre
    ensures r1.Ok? ==>
      && r2 == Error(400, "Invalid or expired verification token")
      && code.Some? && old(pre.Get(token)).Some?
      && db.users == old(db.users) + [LeaderRow(old(db.nextUserId), old(pre.Get(token)).value, hashedPassword, code.value)]
  {
    r1, code := VerifyEmail(db, pre, token, now, hashedPassword, first, regenerated);
    ghost var added := db.users;
    if r1.Ok? {
      FilterMembers(old(pre.entries), (e: Entry) => e.token != token);
      assert pre.Get(token).None?;
    }
    var c2;
    r2, c2 := VerifyEmail(db, pre, token, later, hashedPassword, first, regenerated);
  }

  /** With e-mails unique, the lookup by e-mail and team finds the one
      account holding the e-mail. */
  lemma FindsUniqueEmail(users: seq<User>, k: nat)
    requires UniqueBy(users, EmailOf)
    requires k < |users|
    ensures FindByEmailAndTeam(users, users[k].email, users[k].teamCode) == Some(users[k])
  {
    var found := FindByEmailAndTeam(users, users[k].email, users[k].teamCode);
    assert found.Some? by {
      assert users[k].email == users[k].email && users[k].teamCode == users[k].teamCode;
    }
    var j :| 0 <= j < |users| && users[j] == found.value;
    assert EmailOf(users[j]) == EmailOf(users[k]);
  }

  /** An approved member logs in exactly when the password matches, and
      as that member. */
  lemma LoginFindsApprovedMember(users: seq<User>, k: nat, password: string, compare: (string, string) -> bool)
    requires UniqueBy(users, EmailOf)
    requires k < |users| && users[k].email != "" && users[k].teamCode != "" && password != ""
    requires users[k].role == Member && users[k].status == Approved
    ensures var login := Login(users, users[k].email, password, users[k].teamCode, compare);
      (login.LoggedIn? <==> compare(password, users[k].password))
      && (login.LoggedIn? ==> login.user == users[k])
  {
    FindsUniqueEmail(users, k);
  }

  /** After approval, a member whose password matches can log in, and
      logs in as that member. */
  method ApprovedMemberCanLogIn(db: Database, userId: UserId, teamCode: TeamCode, leaderId: UserId, now: int,
                                email: string, password: string, compare: (string, string) -> bool)
      returns (login: LoginResult)
    requires db.Valid()
    requires userId != 0 && leaderId != 0 && teamCode != "" && email != "" && password != ""
    requires exists k :: 0 <= k < |db.users| && IsTeamMember(db.users[k], userId, teamCode) && db.users[k].email == email
    modifies db
    ensures login == Login(db.users, email, password, teamCode, compare)
    ensures FindByEmailAndTeam(db.users, email, teamCode).Some?
    ensures login.LoggedIn? <==> compare(password, FindByEmailAndTeam(db.users, email, teamCode).value.password)
    ensures login.LoggedIn? ==> login.user.id == userId && login.user.status == Approved
  {
    var k :| 0 <= k < |db.users| && IsTeamMember(db.users[k], userId, teamCode) && db.users[k].email == email;
    var r := ApproveMember(db, Some(userId), teamCode, Some(leaderId), now);
    assert HasTeamMember(old(db.users), userId, teamCode);
    assert db.users[k] == ApprovedRow(old(db.users)[k], leaderId, now);
    FindsUniqueEmail(db.users, k);
    LoginFindsApprovedMember(db.users, k, password, compare);
    login := Login(db.users, email, password, teamCode, compare);
  }
}
