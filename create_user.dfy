/**
 * backend/tools/create_user.php: the command-line tool that seeds a user.
 * Outside the command line it refuses with 403; otherwise it reads the full
 * name, email, password and role from its arguments, checks them in order,
 * refuses a duplicate email, and inserts one row. Each outcome is an exit
 * code and a line of output.
 */
module CreateUser {
  import opened Wrappers
  import opened Text
  import opened Records
  import opened Http
  import opened Tables

  const Forbidden := "Forbidden: this script is CLI only.\n"
  const Usage := "Usage:\n  php backend/tools/create_user.php \"Full Name\" \"email@example.com\" \"password\"\n"
  const BadEmail := "Error: invalid email format.\n"
  const BadRole := "Error: role must be 'user' or 'admin'.\n"
  const Duplicate := "Error: a user with this email already exists.\n"
  const Created := "OK: user created successfully.\n"

  /** What a run prints, its exit code, the HTTP status it sets (only outside the CLI), and its write. */
  datatype Run = Run(httpStatus: Option<int>, exitCode: int, output: string, effect: Effect<UserRow>)

  /** `$argv[i] ?? default`; `argv[0]` is the script's own name. */
  function Arg(argv: seq<string>, i: nat, default: string): string
  {
    if i < |argv| then argv[i] else default
  }

  /** The four inputs after trimming; the role is also lower-cased (ASCII only). */
  datatype Inputs = Inputs(fullName: string, email: string, password: string, role: string)

  function InputsOf(argv: seq<string>): Inputs
  {
    Inputs(PhpTrim(Arg(argv, 1, "")), PhpTrim(Arg(argv, 2, "")), Arg(argv, 3, ""),
           AsciiLower(PhpTrim(Arg(argv, 4, "user"))))
  }

  function Fails(output: string): Run
  {
    Run(None, 1, output, Keep)
  }

  /**
   * The run: 403 outside the CLI; then the usage text when a field is
   * empty, the email error, the role error and the duplicate error, each
   * with exit code 1; otherwise one row with the hashed password and the
   * role, and exit code 0.
   */
  function Decide(isCli: bool, argv: seq<string>, rows: map<int, UserRow>, env: Env): (r: Run)
    ensures !isCli ==> r == Run(Some(403), 1, Forbidden, Keep)
    ensures r.effect.Keep? || r.effect.Add?
    ensures r.exitCode == 0 <==> r.effect.Add?
    ensures r.exitCode == 0 || r.exitCode == 1
    ensures var a := InputsOf(argv);
      && (isCli && (a.fullName == "" || a.email == "" || a.password == "") ==> r == Fails(Usage))
      && (isCli && a.fullName != "" && a.email != "" && a.password != "" && !env.validEmail(a.email) ==> r == Fails(BadEmail))
      && ((isCli && a.fullName != "" && a.email != "" && a.password != "" && env.validEmail(a.email)
           && a.role != "user" && a.role != "admin")
          ==> r == Fails(BadRole))
      && ((isCli && a.fullName != "" && a.email != "" && a.password != "" && env.validEmail(a.email)
           && (a.role == "user" || a.role == "admin") && EmailTaken(rows, a.email))
          ==> r == Fails(Duplicate))
      && (r.effect.Add? <==>
            && isCli && a.fullName != "" && a.email != "" && a.password != "" && env.validEmail(a.email)
            && (a.role == "user" || a.role == "admin") && !EmailTaken(rows, a.email))
      && (r.effect.Add? ==>
            r.output == Created && r.effect.row == UserRow(a.fullName, a.email, env.hash(a.password), Some(a.role)))
  {
    var a := InputsOf(argv);
    if !isCli then Run(Some(403), 1, Forbidden, Keep)
    else if a.fullName == "" || a.email == "" || a.password == "" then Fails(Usage)
    else if !env.validEmail(a.email) then Fails(BadEmail)
    else if a.role != "user" && a.role != "admin" then Fails(BadRole)
    else if EmailTaken(rows, a.email) then Fails(Duplicate)
    else Run(None, 0, Created, Add(UserRow(a.fullName, a.email, env.hash(a.password), Some(a.role))))
  }

  /** The tool never stores a role other than "user" or "admin", and never a duplicate email. */
  lemma {:induction false} DecideKeepsUsersSound(
    isCli: bool, argv: seq<string>, rows: map<int, UserRow>, nextId: int, env: Env)
    requires IdsBelow(rows, nextId) && EmailsUnique(rows)
    ensures var e := Decide(isCli, argv, rows, env).effect;
      && EmailsUnique(Applied(rows, nextId, e))
      && (e.Add? ==> e.row.role == Some("user") || e.row.role == Some("admin"))
  {
    var e := Decide(isCli, argv, rows, env).effect;
    var after := Applied(rows, nextId, e);
    if e.Add? {
      assert nextId !in rows;
      forall i, j | i in after && j in after && after[i].email == after[j].email ensures i == j {
        if i != nextId && j != nextId {
          assert after[i] == rows[i] && after[j] == rows[j];
        }
      }
    }
  }

  /** The role argument is compared after trimming and ASCII lower-casing; a missing one means "user". */
  lemma RoleSpellings()
    ensures InputsOf(["create_user.php", "Ann", "ann@example.com", "secret", " ADMIN\n"]).role == "admin"
    ensures InputsOf(["create_user.php", "Ann", "ann@example.com", "secret"]).role == "user"
  {
    TrimmedAdmin();
    assert AsciiLower("ADMIN") == "admin";
    TrimOfTrimmed("user", PhpTrimSpace);
    assert AsciiLower("user") == "user";
  }

  /** PHP's `trim` takes the space and the newline off " ADMIN\n". */
  lemma TrimmedAdmin()
    ensures PhpTrim(" ADMIN\n") == "ADMIN"
  {
    var word := "ADMIN";
    var padded := [' '] + word + ['\n'];
    assert padded == " ADMIN\n";
    assert padded[1..] == word + ['\n'];
    assert TrimStart(word + ['\n'], PhpTrimSpace) == word + ['\n'];
    assert (word + ['\n'])[..|word|] == word;
    assert TrimEnd(word, PhpTrimSpace) == word;
  }

  /** The script: decide, run the INSERT if any, and report the exit code and output. */
  method Execute(isCli: bool, argv: seq<string>, users: Table<UserRow>, env: Env) returns (exitCode: int, output: string)
    requires users.Valid()
    modifies users
    ensures users.Valid()
    ensures var r := Decide(isCli, argv, old(users.rows), env);
      && exitCode == r.exitCode && output == r.output
      && users.rows == Applied(old(users.rows), old(users.nextId), r.effect)
      && users.nextId == NextId(old(users.nextId), r.effect)
  {
    var r := Decide(isCli, argv, users.rows, env);
    users.Commit(r.effect);
    exitCode, output := r.exitCode, r.output;
  }
}
