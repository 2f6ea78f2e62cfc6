/**
 Small consoles on which seeding goes wrong: one that two ordinary operations
 lead into a state that refuses everything, one that is blocked only in
 appearance, and one that seeding puts out of step.
 */
module ControlExamples {
  import opened Prelude
  import opened Control
  import opened ControlRuns
  import opened ControlSync

  const CLERK := User("a", None, "a", "r", "", "", "", true, 0)
  const ADMIN := CLERK.(role := "admin")
  const OTHER_CODE := Digest("legacy", "admin")
  const ADMIN_POSITION := Digest("position", "admin")
  const CLERK_POSITION := Digest("position", "r")
  const CLERK_RECORD := Digest("user", "a")

  function Single(u: User): Tables {
    Tables([u.name], map[u.name := u], map[], {}, map[], [], 0, map[])
  }

  lemma ShortTexts()
    ensures Strip("") == "" && Strip("a") == "a" && Strip("r") == "r" && Strip("x") == "x"
    ensures Fold("") == "" && Fold("a") == "a" && Fold("r") == "r" && Fold("R") == "r"
  {
  }

  lemma LongerTexts()
    ensures Strip("admin") == "admin" && Fold("admin") == "admin"
  {
    assert !Whitespace('a') && !Whitespace('n');
  }

  lemma ClerkSeeds()
    ensures LegacyPosition(CLERK) == CLERK_POSITION
    ensures LegacyCode(CLERK) == Digest("legacy", "r") && RoleTitle(CLERK) == "r"
    ensures DefaultPermissions(CLERK) == {} && SeededPersonId(CLERK) == CLERK_RECORD
    ensures SeededPerson(CLERK) == Person("a", "a", CLERK_POSITION, Some("a"), "", "", "", true, 1, false)
  {
    ShortTexts();
    hide Fold, Strip;
  }

  lemma AdminSeeds()
    ensures LegacyPosition(ADMIN) == ADMIN_POSITION
    ensures LegacyCode(ADMIN) == OTHER_CODE && DefaultPermissions(ADMIN) != {}
  {
    ShortTexts();
    LongerTexts();
    hide Fold, Strip;
    assert "control.manage" in DefaultPermissions(ADMIN);
  }

  // ---------------------------------------------------------------------
  // A run that ends blocked
  // ---------------------------------------------------------------------

  /** A new position takes the legacy code of administrators; then the clerk's position is renamed. */
  const TAKE_CODE := Audited("m", Operation("a", Given("a"), 0, UpsertPosition(OTHER_CODE, "x", "", None)))
  const RENAME :=
    Audited("m", Operation("r", CLERK_POSITION, 1, UpsertPosition(Digest("legacy", "r"), "admin", "", None)))

  const CLERK_ROW := Position(Digest("legacy", "r"), "r", "", true, 1, false)
  const TAKEN_ROW := Position(OTHER_CODE, "x", "", true, 1, false)
  const SEEDED := Single(CLERK).(positions := map[CLERK_POSITION := CLERK_ROW],
                                 personnel := map[CLERK_RECORD := SeededPerson(CLERK)])
  const WITH_CODE := SEEDED.(positions := SEEDED.positions[Given("a") := TAKEN_ROW])

  lemma FirstSeeding()
    ensures Seed(Single(CLERK)) == Ok(SEEDED)
  {
    ClerkSeeds();
    hide Fold, Strip, RoleTitle, LegacyPosition, LegacyCode, DefaultPermissions, SeededPersonId, SeededPerson;
    var t := Single(CLERK);
    assert !CodeTaken(t.positions, LegacyCode(CLERK), None) && !PersonExists(t, CLERK);
    var t1 := SeedPosition(t, CLERK);
    assert t1 == t.(positions := map[CLERK_POSITION := CLERK_ROW]);
    assert !PersonExists(t1, CLERK);
    assert SeedUser(t, "a") == Ok(SEEDED);
    assert ["a"][1..] == [];
  }

  lemma CodeIsTaken()
    ensures Handle(SEEDED, "m", TAKE_CODE.op) == Ok((WITH_CODE, 1))
  {
    ShortTexts();
    hide Fold, Strip;
    assert CodeKey(CLERK_ROW.code) != CodeKey(OTHER_CODE);
    assert !CodeTaken(SEEDED.positions, OTHER_CODE, None);
  }

  lemma StillSeeded()
    ensures Seed(WITH_CODE) == Ok(WITH_CODE)
  {
    ClerkSeeds();
    hide Fold, Strip, RoleTitle, LegacyPosition, LegacyCode, DefaultPermissions, SeededPersonId, SeededPerson;
    assert CLERK_RECORD in WITH_CODE.personnel;
    assert PersonExists(WITH_CODE, CLERK);
    assert SeedUser(WITH_CODE, "a") == Ok(WITH_CODE);
    assert ["a"][1..] == [];
  }

  lemma ClerkIsRenamed() returns (t: Tables)
    ensures Handle(WITH_CODE, "m", RENAME.op) == Ok((t, 2))
    ensures t.accounts == ["a"] && t.users == map["a" := ADMIN]
    ensures t.positions.Keys == {CLERK_POSITION, Given("a")} && t.positions[Given("a")] == TAKEN_ROW
  {
    ShortTexts();
    LongerTexts();
    ClerkSeeds();
    hide Fold, Strip;
    assert CodeKey(TAKEN_ROW.code) != CodeKey(Digest("legacy", "r"));
    assert !CodeTaken(WITH_CODE.positions, Digest("legacy", "r"), Some(CLERK_POSITION));
    assert LinkedTo(WITH_CODE.personnel, CLERK_POSITION, "a") by {
      assert CLERK_RECORD in WITH_CODE.personnel && WITH_CODE.personnel[CLERK_RECORD] == SeededPerson(CLERK);
    }
    t := Handle(WITH_CODE, "m", RENAME.op).value.0;
  }

  lemma ValidExamples()
    ensures ValidOperation(TAKE_CODE.op) && ValidOperation(RENAME.op)
  {
  }

  lemma OneDelivery(c: Console, d: Audited)
    ensures Run(c, [d]) == Deliver(c, d.user, d.op).0 && Answers(c, [d]) == [Deliver(c, d.user, d.op).1]
  {
    hide Deliver;
    assert [d][..0] == [];
  }

  /** Two applied operations, and from then on the console refuses everything. */
  lemma TwoOperationsBlockTheConsole(later: seq<Audited>)
    ensures Answers(Fresh(Single(CLERK)), [TAKE_CODE, RENAME])
            == [Applied(Response(Given("a"), 1)), Applied(Response(CLERK_POSITION, 2))]
    ensures var c := Run(Fresh(Single(CLERK)), [TAKE_CODE, RENAME]);
            Blocked(c.tables, "a") && Run(c, later) == c
  {
    FirstSeeding();
    CodeIsTaken();
    StillSeeded();
    var t := ClerkIsRenamed();
    ValidExamples();
    AdminSeeds();
    hide Handle, Seed, ValidOperation, LegacyPosition, LegacyCode, DefaultPermissions, Fold, Strip;
    var c0 := Fresh(Single(CLERK));
    var both := [TAKE_CODE, RENAME];
    assert both[..1] == [TAKE_CODE] && [TAKE_CODE][..0] == [];
    var c1 := Run(c0, [TAKE_CODE]);
    OneDelivery(c0, TAKE_CODE);
    assert c1.tables == WITH_CODE;
    assert "a" != "r" by {
      assert "a"[0] != "r"[0];
    }
    assert c1.receipts == c0.receipts["a" := Response(Given("a"), 1)];
    assert "r" !in c1.receipts;
    var c2 := Run(c0, both);
    assert c2.tables == t;
    assert Answers(c0, [TAKE_CODE]) == [Applied(Response(Given("a"), 1))];
    assert CodeTaken(t.positions, OTHER_CODE, None) by {
      assert Given("a") in t.positions;
    }
    assert Blocked(t, "a") && NeedsPermissions(t, "a");
    assert "a" in t.accounts;
    BlockedConsoleRefusesEverything(c2);
  }

  // ---------------------------------------------------------------------
  // A record that another account brings
  // ---------------------------------------------------------------------

  /** The first account has personnel number 7, the second is called "7"; the legacy code of the
      second one's role is taken. */
  const NUMBERED := CLERK.(name := "x", personnelId := Some(7), role := "x")
  const NAMED := CLERK.(name := "7")
  const TWO_USERS := Tables(["x", "7"], map["x" := NUMBERED, "7" := NAMED],
                            map[Given("a") := Position(Digest("legacy", "r"), "x", "", true, 1, false)],
                             {}, map[], [], 0, map[])

  lemma TwoSeeds()
    ensures LegacyCode(NUMBERED) == Digest("legacy", "x")
    ensures LegacyPosition(NAMED) == CLERK_POSITION && LegacyCode(NAMED) == Digest("legacy", "r")
    ensures DefaultPermissions(NAMED) == {}
    ensures SeededPerson(NUMBERED).code == SeededPerson(NAMED).code
  {
    ShortTexts();
    assert Fold("x") == "x" && Fold("7") == "7";
    assert Digits(7) == "7" && Decimal(7) == "7";
    hide Fold, Strip;
  }

  /** A blocked account without default permissions does not stop the seeding when an earlier
      account brings a record under its code. */
  lemma BlockedInAppearance()
    ensures Blocked(TWO_USERS, "7") && Seed(TWO_USERS).Ok?
  {
    TwoSeeds();
    assert "x"[0] != "r"[0] && "x"[0] != "7"[0];
    hide Fold, Strip, LegacyPosition, LegacyCode, DefaultPermissions, SeededPersonId, SeededPerson, RoleTitle;
    var t := TWO_USERS;
    assert Given("a") in t.positions;
    assert CodeTaken(t.positions, LegacyCode(NAMED), None) && !CodeTaken(t.positions, LegacyCode(NUMBERED), None);
    assert !PersonExists(t, NUMBERED) && !PersonExists(t, NAMED);
    SeedingFailsExactlyWhen(t);
    assert t.accounts[..1] == ["x"] && ["x"][..0] == [];
    assert Added(t, ["x"]) == {"x"};
    assert SameSeed(NUMBERED, NAMED);
    assert !FailsAt(t, t.accounts, 0) && !FailsAt(t, t.accounts, 1);
  }

  // ---------------------------------------------------------------------
  // A role that differs in letter case
  // ---------------------------------------------------------------------

  const LOUD := CLERK.(role := "R")
  const ONE_POSITION := Single(LOUD).(positions := map[CLERK_POSITION := CLERK_ROW])

  /** An account whose role is written "R" is seeded under the position "r", and no longer has its title. */
  lemma LetterCaseSeparates()
    ensures InSync(ONE_POSITION) && SeedUser(ONE_POSITION, "a").Ok?
    ensures !InSync(SeedUser(ONE_POSITION, "a").value)
  {
    ShortTexts();
    assert Strip("R") == "R" && "R"[0] != "r"[0];
    LoudSeeds();
    hide Fold, Strip, LegacyPosition, LegacyCode, DefaultPermissions, SeededPersonId, SeededPerson, RoleTitle;
    var t := ONE_POSITION;
    assert SeedPosition(t, LOUD) == t;
    assert !PersonExists(t, LOUD);
    SeedingKeepsSyncExactlyWhen(t, "a");
  }

  lemma LoudSeeds()
    ensures LegacyPosition(LOUD) == CLERK_POSITION && DefaultPermissions(LOUD) == {}
  {
    ShortTexts();
    assert Strip("R") == "R";
    hide Fold, Strip;
  }
}
