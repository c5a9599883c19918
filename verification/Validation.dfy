/** Name rules and roster validation (internal/roster/load.go). */
module Validation {
  import opened Common
  import opened Names
  import opened IdRange
  import opened Roster

  predicate NameStart(c: char) { 'a' <= c <= 'z' || c == '_' }

  predicate NameChar(c: char) { NameStart(c) || '0' <= c <= '9' || c == '.' || c == '-' }

  /** ^[a-z_][a-z0-9_.-]{0,31}$ */
  predicate ValidName(s: Name) {
    1 <= |s| <= 32 && NameStart(s[0]) && forall i :: 1 <= i < |s| ==> NameChar(s[i])
  }

  predicate HasControl(s: string) {
    exists i :: 0 <= i < |s| && (s[i] < ' ' || s[i] == 127 as char)
  }

  const RESERVED_SECTIONS: set<Name> := {"global", "homes", "printers"}

  const READ_SUFFIX := ".read"

  predicate HasSuffix(s: Name, suffix: Name) {
    |suffix| <= |s| && s[|s| - |suffix|..] == suffix
  }

  datatype Policy = PolicyError | PolicySkip

  datatype Skipped = SkippedGroup(name: Name, id: Id) | SkippedUser(name: Name, id: Id)

  datatype Problem =
    | BadGroupName(name: Name) | ReservedSection(name: Name) | ReadSuffixed(name: Name) | BadDescription(name: Name)
    | DuplicateGroup(name: Name) | DuplicateGid(name: Name, gid: Id)
    | BadOwner(group: Name, owner: Name) | DuplicateOwner(group: Name, owner: Name)
    | UnknownOwner(group: Name, owner: Name)
    | ReadAllAndExempt(group: Name) | AnonymousWithReaders(group: Name)
    | BadReader(group: Name, reader: Name) | SelfReader(group: Name) | DuplicateReader(group: Name, reader: Name)
    | UnknownReader(group: Name, reader: Name) | RedundantReader(group: Name, reader: Name)
    | AllWithMembers(group: Name) | UnknownProfile(group: Name, profile: Name)
    | BadMember(group: Name, member: Name) | DuplicateMember(group: Name, member: Name)
    | UnknownMember(group: Name, member: Name)
    | BadUserName(name: Name) | DuplicateUser(name: Name) | DuplicateUid(name: Name, uid: Id)
    | Separator(name: Name) | BadFullName(name: Name)
    | ProtectedId(name: Name, id: Id) | OutOfScopeId(name: Name, id: Id)

  // --- what the names are, letter by letter ---

  const LETTERS := "abcdefghijklmnopqrstuvwxyz"

  const DIGITS := "0123456789"

  lemma LettersExact(c: char)
    ensures c in LETTERS <==> 'a' <= c <= 'z'
  {
    assert 'a' <= c <= 'z' ==> LETTERS[c as int - 'a' as int] == c;
  }

  lemma DigitsExact(c: char)
    ensures c in DIGITS <==> '0' <= c <= '9'
  {
    assert '0' <= c <= '9' ==> DIGITS[c as int - '0' as int] == c;
  }

  /** One to 32 letters, digits, underscores, dots and dashes, the first a letter or an underscore. */
  lemma NameExact(s: Name)
    ensures ValidName(s) <==>
              && 1 <= |s| <= 32 && (s[0] in LETTERS || s[0] == '_')
              && forall c :: c in s ==> c in LETTERS || c in DIGITS || c in "_.-"
  {
    forall c ensures NameStart(c) <==> c in LETTERS || c == '_' { LettersExact(c); }
    forall c ensures NameChar(c) <==> c in LETTERS || c in DIGITS || c in "_.-" {
      LettersExact(c);
      DigitsExact(c);
    }
    if 1 <= |s| && forall c :: c in s ==> NameChar(c) {
      forall i | 1 <= i < |s| ensures NameChar(s[i]) { assert s[i] in s; }
    }
  }

  lemma SuffixExact(s: Name, suffix: Name)
    ensures HasSuffix(s, suffix) <==> exists stem: Name :: s == stem + suffix
  {
    if HasSuffix(s, suffix) { assert s == s[..|s| - |suffix|] + suffix; }
    if stem: Name :| s == stem + suffix { assert s[|s| - |suffix|..] == suffix; }
  }

  lemma ControlExact(s: string)
    ensures HasControl(s) <==> exists c :: c in s && (c as int < 32 || c as int == 127)
  {
    if HasControl(s) {
      var i :| 0 <= i < |s| && (s[i] < ' ' || s[i] == 127 as char);
      assert s[i] in s;
    }
  }

  /** No section name, no reader's share, and no control character in the description. */
  lemma GroupNameExact(g: Group)
    ensures GroupNameAllowed(g) <==>
              && ValidName(g.name) && g.name != "global" && g.name != "homes" && g.name != "printers"
              && (forall stem: Name :: g.name != stem + ".read")
              && forall c :: c in g.description ==> c as int >= 32 && c as int != 127
  {
    SuffixExact(g.name, READ_SUFFIX);
    ControlExact(g.description);
  }

  // --- the rules, said without the checking order ---

  ghost predicate GroupNameAllowed(g: Group) {
    ValidName(g.name) && g.name !in RESERVED_SECTIONS && !HasSuffix(g.name, READ_SUFFIX) && !HasControl(g.description)
  }

  ghost predicate NamesAllowed(names: seq<Name>, declared: set<Name>) {
    (forall n :: n in names ==> ValidName(n) && n in declared) && Distinct(Self, names)
  }

  ghost predicate ReadersAllowed(gs: seq<Group>, g: Group) {
    && !(g.readAll && g.readAllExempt)
    && (g.anonymous == AnonNone || g.readers == [])
    && NamesAllowed(g.readers, GroupNames(gs)) && g.name !in g.readers
    && (g.anonymous == AnonNone && !g.readAllExempt ==>
          forall h :: h in gs && h.readAll ==> h.name !in g.readers)
  }

  ghost predicate MembersAllowed(ro: Roster, g: Group) {
    && (g.all.everyone || g.all.profile != "" ==> g.members == [])
    && (g.all.profile == "" || g.all.profile == "default" || g.all.profile in ro.profiles)
    && NamesAllowed(g.members, UserNames(ro.users))
  }

  predicate FullNameAllowed(s: string) {
    ',' !in s && ':' !in s && !HasControl(s)
  }

  predicate IdAllowed(c: Class, policy: Policy) {
    c == Managed || (c == OutOfScope && policy == PolicySkip)
  }

  function GroupNames(gs: seq<Group>): set<Name> {
    set g | g in gs :: g.name
  }

  function UserNames(us: seq<User>): set<Name> {
    set u | u in us :: u.name
  }

  /** What a roster the loader accepts satisfies. */
  ghost predicate Accepted(ro: Roster, cls: Classifier, policy: Policy) {
    && GroupsUnique(ro.groups) && UsersUnique(ro.users)
    && (forall g :: g in ro.groups ==> GroupAllowed(ro, cls, policy, g))
    && (forall u :: u in ro.users ==> UserAllowed(cls, policy, u))
  }

  ghost predicate GroupAllowed(ro: Roster, cls: Classifier, policy: Policy, g: Group) {
    && GroupNameAllowed(g)
    && NamesAllowed(g.owners, UserNames(ro.users))
    && ReadersAllowed(ro.groups, g)
    && MembersAllowed(ro, g)
    && IdAllowed(cls.Gid(g.gid), policy)
  }

  ghost predicate UserAllowed(cls: Classifier, policy: Policy, u: User) {
    ValidName(u.name) && FullNameAllowed(u.fullName) && IdAllowed(cls.Uid(u.uid), policy)
  }

  /** A user's entry: a valid name, a full name without separators and control characters, and an id that is
      not protected, nor out of scope unless such entries are to be skipped. */
  lemma UserExact(cls: Classifier, policy: Policy, u: User)
    ensures UserAllowed(cls, policy, u) <==>
              && ValidName(u.name)
              && (forall c :: c in u.fullName ==> c != ',' && c != ':' && c as int >= 32 && c as int != 127)
              && cls.Uid(u.uid) != Protected && (cls.Uid(u.uid) == OutOfScope ==> policy == PolicySkip)
  {
    ControlExact(u.fullName);
  }

  // --- the checks ---

  ghost predicate GroupsUnique(gs: seq<Group>) {
    Distinct(GroupKey, gs) && forall i, j :: 0 <= i < j < |gs| ==> gs[i].gid != gs[j].gid
  }

  function Gids(gs: seq<Group>): set<Id> {
    set g | g in gs :: g.gid
  }

  lemma GroupsUniqueStep(gs: seq<Group>, i: nat)
    requires i < |gs|
    ensures GroupsUnique(gs[..i + 1]) <==>
              GroupsUnique(gs[..i]) && gs[i].name !in GroupNames(gs[..i]) && gs[i].gid !in Gids(gs[..i])
    ensures GroupNames(gs[..i + 1]) == GroupNames(gs[..i]) + {gs[i].name}
    ensures Gids(gs[..i + 1]) == Gids(gs[..i]) + {gs[i].gid}
  {
    var a, b := gs[..i], gs[..i + 1];
    assert b == a + [gs[i]];
    if GroupsUnique(b) {
      forall j, k | 0 <= j < k < |a| ensures GroupKey(a[j]) != GroupKey(a[k]) && a[j].gid != a[k].gid {
        assert GroupKey(b[j]) != GroupKey(b[k]) && b[j].gid != b[k].gid;
      }
      forall j | 0 <= j < |a| ensures a[j].name != gs[i].name && a[j].gid != gs[i].gid {
        assert GroupKey(b[j]) != GroupKey(b[i]) && b[j].gid != b[i].gid;
      }
    }
  }

  method CheckGroup(g: Group, seen: set<Name>, gids: set<Id>) returns (errs: seq<Problem>)
    ensures errs == [] <==> GroupNameAllowed(g) && g.name !in seen && g.gid !in gids
  {
    errs := [];
    if !ValidName(g.name) { errs := errs + [BadGroupName(g.name)]; }
    if g.name in RESERVED_SECTIONS { errs := errs + [ReservedSection(g.name)]; }
    if HasSuffix(g.name, READ_SUFFIX) { errs := errs + [ReadSuffixed(g.name)]; }
    if HasControl(g.description) { errs := errs + [BadDescription(g.name)]; }
    if g.name in seen { errs := errs + [DuplicateGroup(g.name)]; }
    if g.gid in gids { errs := errs + [DuplicateGid(g.name, g.gid)]; }
  }

  /** Uniqueness and spelling of the groups' names and gids. */
  method CheckGroups(gs: seq<Group>) returns (errs: seq<Problem>, seen: set<Name>)
    ensures seen == GroupNames(gs)
    ensures errs == [] <==> GroupsUnique(gs) && forall g :: g in gs ==> GroupNameAllowed(g)
  {
    errs, seen := [], {};
    var gids: set<Id> := {};
    for i := 0 to |gs|
      invariant seen == GroupNames(gs[..i]) && gids == Gids(gs[..i])
      invariant errs == [] <==> GroupsUnique(gs[..i]) && forall g :: g in gs[..i] ==> GroupNameAllowed(g)
    {
      GroupsUniqueStep(gs, i);
      var more := CheckGroup(gs[i], seen, gids);
      assert gs[..i + 1] == gs[..i] + [gs[i]];
      errs := errs + more;
      seen, gids := seen + {gs[i].name}, gids + {gs[i].gid};
    }
    assert gs[..|gs|] == gs;
  }

  /** A list of names of one group: each valid, declared and listed once. */
  method CheckOwners(g: Group, declared: set<Name>) returns (errs: seq<Problem>)
    ensures errs == [] <==> NamesAllowed(g.owners, declared)
  {
    errs := [];
    var seen: set<Name> := {};
    for i := 0 to |g.owners|
      invariant errs == [] ==> seen == SetOf(g.owners[..i])
      invariant errs == [] <==> NamesAllowed(g.owners[..i], declared)
    {
      var o := g.owners[i];
      ListStep(g.owners, declared, i);
      if !ValidName(o) {
        errs := errs + [BadOwner(g.name, o)];
      } else {
        if o in seen { errs := errs + [DuplicateOwner(g.name, o)]; }
        seen := seen + {o};
        if o !in declared { errs := errs + [UnknownOwner(g.name, o)]; }
      }
    }
    assert g.owners[..|g.owners|] == g.owners;
  }

  lemma ListStep(names: seq<Name>, declared: set<Name>, i: nat)
    requires i < |names|
    ensures NamesAllowed(names[..i + 1], declared) <==>
              NamesAllowed(names[..i], declared) && ValidName(names[i]) && names[i] in declared
                && names[i] !in names[..i]
    ensures SetOf(names[..i + 1]) == SetOf(names[..i]) + {names[i]}
  {
    var a, b := names[..i], names[..i + 1];
    assert b == a + [names[i]];
    if Distinct(Self, b) {
      forall j, k | 0 <= j < k < |a| ensures Self(a[j]) != Self(a[k]) { assert Self(b[j]) != Self(b[k]); }
      forall j | 0 <= j < |a| ensures a[j] != names[i] { assert Self(b[j]) != Self(b[i]); }
    }
  }

  function ByName(gs: seq<Group>): map<Name, Group> {
    if gs == [] then map[] else ByName(gs[..|gs| - 1])[gs[|gs| - 1].name := gs[|gs| - 1]]
  }

  lemma {:induction false} ByNameExact(gs: seq<Group>, n: Name)
    ensures n in ByName(gs) <==> n in GroupNames(gs)
    ensures n in ByName(gs) ==> ByName(gs)[n] in gs && ByName(gs)[n].name == n
    decreases |gs|
  {
    if gs != [] {
      var last := gs[|gs| - 1];
      ByNameExact(gs[..|gs| - 1], n);
      assert gs == gs[..|gs| - 1] + [last];
    }
  }

  /** One group's readers; under the names' uniqueness, no reader that reads the group anyway. */
  method CheckReaders(gs: seq<Group>, g: Group, seenGroups: set<Name>, byName: map<Name, Group>)
    returns (errs: seq<Problem>)
    requires seenGroups == GroupNames(gs) && byName == ByName(gs)
    ensures errs == [] <==>
              && !(g.readAll && g.readAllExempt) && (g.anonymous == AnonNone || g.readers == [])
              && NamesAllowed(g.readers, seenGroups) && g.name !in g.readers
              && (g.anonymous == AnonNone && !g.readAllExempt ==>
                    forall n :: n in g.readers && n in byName ==> !byName[n].readAll)
  {
    errs := [];
    if g.readAll && g.readAllExempt { errs := errs + [ReadAllAndExempt(g.name)]; }
    if g.anonymous != AnonNone && |g.readers| > 0 { errs := errs + [AnonymousWithReaders(g.name)]; }
    var start, seen := errs, {};
    for i := 0 to |g.readers|
      invariant errs == [] ==> seen == SetOf(g.readers[..i])
      invariant errs == [] <==>
                  && start == [] && NamesAllowed(g.readers[..i], seenGroups) && g.name !in g.readers[..i]
                  && (g.anonymous == AnonNone && !g.readAllExempt ==>
                        forall n :: n in g.readers[..i] && n in byName ==> !byName[n].readAll)
    {
      var r := g.readers[i];
      ListStep(g.readers, seenGroups, i);
      ByNameExact(gs, r);
      assert g.readers[..i + 1] == g.readers[..i] + [r];
      if !ValidName(r) {
        errs := errs + [BadReader(g.name, r)];
      } else {
        if r == g.name { errs := errs + [SelfReader(g.name)]; }
        else if r in seen { errs := errs + [DuplicateReader(g.name, r)]; }
        else if r !in seenGroups { errs := errs + [UnknownReader(g.name, r)]; }
        else if ReadAllReaches(byName[r], g) { errs := errs + [RedundantReader(g.name, r)]; }
        seen := seen + {r};
      }
    }
    assert g.readers[..|g.readers|] == g.readers;
  }

  /** One group's cohort and members. */
  method CheckMembers(ro: Roster, g: Group, declared: set<Name>) returns (errs: seq<Problem>)
    requires declared == UserNames(ro.users)
    ensures errs == [] <==> MembersAllowed(ro, g)
  {
    errs := [];
    if g.all.IsSet() && |g.members| > 0 { errs := errs + [AllWithMembers(g.name)]; }
    if g.all.profile != "" && g.all.profile != "default" && g.all.profile !in ro.profiles {
      errs := errs + [UnknownProfile(g.name, g.all.profile)];
    }
    var start, seen := errs, {};
    for i := 0 to |g.members|
      invariant seen == SetOf(g.members[..i])
      invariant errs == [] <==> start == [] && NamesAllowed(g.members[..i], declared)
    {
      var m := g.members[i];
      ListStep(g.members, declared, i);
      if !ValidName(m) { errs := errs + [BadMember(g.name, m)]; }
      else if m in seen { errs := errs + [DuplicateMember(g.name, m)]; }
      else if m !in declared { errs := errs + [UnknownMember(g.name, m)]; }
      seen := seen + {m};
    }
    assert g.members[..|g.members|] == g.members;
  }

  ghost predicate UsersUnique(us: seq<User>) {
    Distinct(UserKey, us) && forall i, j :: 0 <= i < j < |us| ==> us[i].uid != us[j].uid
  }

  function Uids(us: seq<User>): set<Id> {
    set u | u in us :: u.uid
  }

  lemma UsersUniqueStep(us: seq<User>, i: nat)
    requires i < |us|
    ensures UsersUnique(us[..i + 1]) <==>
              UsersUnique(us[..i]) && us[i].name !in UserNames(us[..i]) && us[i].uid !in Uids(us[..i])
    ensures UserNames(us[..i + 1]) == UserNames(us[..i]) + {us[i].name}
    ensures Uids(us[..i + 1]) == Uids(us[..i]) + {us[i].uid}
  {
    var a, b := us[..i], us[..i + 1];
    assert b == a + [us[i]];
    if UsersUnique(b) {
      forall j, k | 0 <= j < k < |a| ensures UserKey(a[j]) != UserKey(a[k]) && a[j].uid != a[k].uid {
        assert UserKey(b[j]) != UserKey(b[k]) && b[j].uid != b[k].uid;
      }
      forall j | 0 <= j < |a| ensures a[j].name != us[i].name && a[j].uid != us[i].uid {
        assert UserKey(b[j]) != UserKey(b[i]) && b[j].uid != b[i].uid;
      }
    }
  }

  method CheckUser(u: User, names: set<Name>, uids: set<Id>) returns (errs: seq<Problem>)
    ensures errs == [] <==> ValidName(u.name) && FullNameAllowed(u.fullName) && u.name !in names && u.uid !in uids
  {
    errs := [];
    if !ValidName(u.name) { errs := errs + [BadUserName(u.name)]; }
    if u.name in names { errs := errs + [DuplicateUser(u.name)]; }
    if u.uid in uids { errs := errs + [DuplicateUid(u.name, u.uid)]; }
    if ',' in u.fullName || ':' in u.fullName { errs := errs + [Separator(u.name)]; }
    if HasControl(u.fullName) { errs := errs + [BadFullName(u.name)]; }
  }

  /** Uniqueness and spelling of the users. */
  method CheckUsers(us: seq<User>) returns (errs: seq<Problem>)
    ensures errs == [] <==> UsersUnique(us) && forall u :: u in us ==> ValidName(u.name) && FullNameAllowed(u.fullName)
  {
    errs := [];
    var names: set<Name>, uids: set<Id> := {}, {};
    for i := 0 to |us|
      invariant names == UserNames(us[..i]) && uids == Uids(us[..i])
      invariant errs == [] <==>
                  UsersUnique(us[..i]) && forall u :: u in us[..i] ==> ValidName(u.name) && FullNameAllowed(u.fullName)
    {
      UsersUniqueStep(us, i);
      var more := CheckUser(us[i], names, uids);
      assert us[..i + 1] == us[..i] + [us[i]];
      errs := errs + more;
      names, uids := names + {us[i].name}, uids + {us[i].uid};
    }
    assert us[..|us|] == us;
  }

  function SkippedGroups(cls: Classifier): Group -> seq<Skipped> {
    (g: Group) => if cls.Gid(g.gid) == OutOfScope then [SkippedGroup(g.name, g.gid)] else []
  }

  function SkippedUsers(cls: Classifier): User -> seq<Skipped> {
    (u: User) => if cls.Uid(u.uid) == OutOfScope then [SkippedUser(u.name, u.uid)] else []
  }

  method CheckGid(g: Group, cls: Classifier, policy: Policy) returns (errs: seq<Problem>, skipped: seq<Skipped>)
    ensures errs == [] <==> IdAllowed(cls.Gid(g.gid), policy)
    ensures skipped == if policy == PolicySkip then SkippedGroups(cls)(g) else []
  {
    errs, skipped := [], [];
    match cls.Gid(g.gid)
    case Protected => errs := [ProtectedId(g.name, g.gid)];
    case OutOfScope =>
      if policy == PolicySkip { skipped := [SkippedGroup(g.name, g.gid)]; }
      else { errs := [OutOfScopeId(g.name, g.gid)]; }
    case Managed =>
  }

  method CheckGids(gs: seq<Group>, cls: Classifier, policy: Policy) returns (errs: seq<Problem>, skipped: seq<Skipped>)
    ensures errs == [] <==> forall g :: g in gs ==> IdAllowed(cls.Gid(g.gid), policy)
    ensures skipped == if policy == PolicySkip then Flat(SkippedGroups(cls), gs) else []
  {
    errs, skipped := [], [];
    for i := 0 to |gs|
      invariant errs == [] <==> forall k :: 0 <= k < i ==> IdAllowed(cls.Gid(gs[k].gid), policy)
      invariant skipped == if policy == PolicySkip then Flat(SkippedGroups(cls), gs[..i]) else []
    {
      FlatStep(SkippedGroups(cls), gs, i);
      var e, k := CheckGid(gs[i], cls, policy);
      errs, skipped := errs + e, skipped + k;
    }
    assert gs[..|gs|] == gs;
  }

  method CheckUid(u: User, cls: Classifier, policy: Policy) returns (errs: seq<Problem>, skipped: seq<Skipped>)
    ensures errs == [] <==> IdAllowed(cls.Uid(u.uid), policy)
    ensures skipped == if policy == PolicySkip then SkippedUsers(cls)(u) else []
  {
    errs, skipped := [], [];
    match cls.Uid(u.uid)
    case Protected => errs := [ProtectedId(u.name, u.uid)];
    case OutOfScope =>
      if policy == PolicySkip { skipped := [SkippedUser(u.name, u.uid)]; }
      else { errs := [OutOfScopeId(u.name, u.uid)]; }
    case Managed =>
  }

  method CheckUids(us: seq<User>, cls: Classifier, policy: Policy) returns (errs: seq<Problem>, skipped: seq<Skipped>)
    ensures errs == [] <==> forall u :: u in us ==> IdAllowed(cls.Uid(u.uid), policy)
    ensures skipped == if policy == PolicySkip then Flat(SkippedUsers(cls), us) else []
  {
    errs, skipped := [], [];
    for i := 0 to |us|
      invariant errs == [] <==> forall k :: 0 <= k < i ==> IdAllowed(cls.Uid(us[k].uid), policy)
      invariant skipped == if policy == PolicySkip then Flat(SkippedUsers(cls), us[..i]) else []
    {
      FlatStep(SkippedUsers(cls), us, i);
      var e, k := CheckUid(us[i], cls, policy);
      errs, skipped := errs + e, skipped + k;
    }
    assert us[..|us|] == us;
  }

  ghost predicate OwnersAllowed(ro: Roster, g: Group) {
    NamesAllowed(g.owners, UserNames(ro.users))
  }

  /** The per-group passes over owners, readers and members. */
  method CheckLists(ro: Roster, seenGroups: set<Name>) returns (errs: seq<Problem>)
    requires seenGroups == GroupNames(ro.groups)
    ensures Distinct(GroupKey, ro.groups) ==>
              (errs == [] <==> forall g :: g in ro.groups ==>
                 OwnersAllowed(ro, g) && ReadersAllowed(ro.groups, g) && MembersAllowed(ro, g))
  {
    errs := [];
    var gs, declared, byName := ro.groups, UserNames(ro.users), ByName(ro.groups);
    for i := 0 to |gs|
      invariant errs == [] <==> forall k :: 0 <= k < i ==> OwnersAllowed(ro, gs[k])
    {
      var more := CheckOwners(gs[i], declared);
      errs := errs + more;
    }
    var owners := errs;
    for i := 0 to |gs|
      invariant Distinct(GroupKey, gs) ==>
                  (errs == [] <==> owners == [] && forall k :: 0 <= k < i ==> ReadersAllowed(gs, gs[k]))
    {
      var more := CheckReaders(gs, gs[i], seenGroups, byName);
      if Distinct(GroupKey, gs) { NamedReaders(gs, gs[i]); }
      errs := errs + more;
    }
    var readers := errs;
    for i := 0 to |gs|
      invariant errs == [] <==> readers == [] && forall k :: 0 <= k < i ==> MembersAllowed(ro, gs[k])
    {
      var more := CheckMembers(ro, gs[i], declared);
      errs := errs + more;
    }
  }

  /** With unique names the table by name finds exactly the declared groups. */
  lemma NamedReaders(gs: seq<Group>, g: Group)
    requires Distinct(GroupKey, gs)
    ensures (forall n :: n in g.readers && n in ByName(gs) ==> !ByName(gs)[n].readAll)
            <==> forall h :: h in gs && h.readAll ==> h.name !in g.readers
  {
    forall n | n in ByName(gs) ensures ByName(gs)[n] in gs && ByName(gs)[n].name == n { ByNameExact(gs, n); }
    forall h | h in gs ensures h.name in ByName(gs) && ByName(gs)[h.name] == h {
      ByNameExact(gs, h.name);
      var k := ByName(gs)[h.name];
      var i :| 0 <= i < |gs| && gs[i] == h;
      var j :| 0 <= j < |gs| && gs[j] == k;
      assert GroupKey(gs[i]) == GroupKey(gs[j]);
    }
  }

  /** Validate reports no error exactly for accepted rosters, and which entries it would drop. */
  method Validate(ro: Roster, cls: Classifier, policy: Policy) returns (errs: seq<Problem>, skipped: seq<Skipped>)
    ensures errs == [] <==> Accepted(ro, cls, policy)
    ensures skipped == if policy == PolicySkip
                       then Flat(SkippedGroups(cls), ro.groups) + Flat(SkippedUsers(cls), ro.users) else []
  {
    var a, seen := CheckGroups(ro.groups);
    var b := CheckLists(ro, seen);
    var c := CheckUsers(ro.users);
    var d, gs := CheckGids(ro.groups, cls, policy);
    var e, us := CheckUids(ro.users, cls, policy);
    errs, skipped := a + b + c + d + e, gs + us;
  }

  /** Skipped are the groups and users whose id is out of scope, groups first, in the order of the roster. */
  lemma SkippedExact(ro: Roster, cls: Classifier, k: Skipped)
    ensures k in Flat(SkippedGroups(cls), ro.groups) <==>
              exists g :: g in ro.groups && cls.Gid(g.gid) == OutOfScope && k == SkippedGroup(g.name, g.gid)
    ensures k in Flat(SkippedUsers(cls), ro.users) <==>
              exists u :: u in ro.users && cls.Uid(u.uid) == OutOfScope && k == SkippedUser(u.name, u.uid)
  {
    FlatMember(SkippedGroups(cls), ro.groups, k);
    FlatMember(SkippedUsers(cls), ro.users, k);
  }

  // --- the managed part of a roster ---

  function KeepGroups(cls: Classifier): Group -> seq<Group> {
    (g: Group) => if cls.Gid(g.gid) == Managed then [g] else []
  }

  function KeepUsers(cls: Classifier): User -> seq<User> {
    (u: User) => if cls.Uid(u.uid) == Managed then [u] else []
  }

  /** Managed: a copy narrowed to the entries this installation manages, without the profiles. */
  function Narrowed(ro: Roster, cls: Classifier): Roster {
    Roster({}, Flat(KeepGroups(cls), ro.groups), Flat(KeepUsers(cls), ro.users))
  }

  lemma NarrowedMembers(ro: Roster, cls: Classifier)
    ensures forall g :: g in Narrowed(ro, cls).groups <==> g in ro.groups && cls.Gid(g.gid) == Managed
    ensures forall u :: u in Narrowed(ro, cls).users <==> u in ro.users && cls.Uid(u.uid) == Managed
  {
    forall g ensures g in Narrowed(ro, cls).groups <==> g in ro.groups && cls.Gid(g.gid) == Managed {
      FlatMember(KeepGroups(cls), ro.groups, g);
    }
    forall u ensures u in Narrowed(ro, cls).users <==> u in ro.users && cls.Uid(u.uid) == Managed {
      FlatMember(KeepUsers(cls), ro.users, u);
    }
  }

  lemma {:induction false} KeptDistinct<T(!new)>(key: T -> Name, f: T -> seq<T>, s: seq<T>)
    requires Distinct(key, s) && forall x :: f(x) == [x] || f(x) == []
    ensures Distinct(key, Flat(f, s))
    decreases |s|
  {
    if s != [] {
      KeptDistinct(key, f, s[1..]);
      var rest := Flat(f, s[1..]);
      forall y | y in rest ensures key(y) != key(s[0]) { FlatMember(f, s[1..], y); }
      if f(s[0]) == [s[0]] {
        var all := [s[0]] + rest;
        assert Flat(f, s) == all;
        assert forall i :: 1 <= i < |all| ==> all[i] == rest[i - 1] && all[i] in rest;
      } else {
        assert Flat(f, s) == rest;
      }
    }
  }

  /** Narrowing an accepted roster leaves a roster of managed entries, each name and id declared once. */
  lemma NarrowedUnique(ro: Roster, cls: Classifier, policy: Policy)
    requires Accepted(ro, cls, policy)
    ensures var m := Narrowed(ro, cls);
            && Distinct(GroupKey, m.groups) && Distinct(UserKey, m.users)
            && (forall g, h :: g in m.groups && h in m.groups && g.gid == h.gid ==> g == h)
            && (forall u, v :: u in m.users && v in m.users && u.uid == v.uid ==> u == v)
            && (forall g :: g in m.groups ==> cls.Gid(g.gid) == Managed)
            && (forall u :: u in m.users ==> cls.Uid(u.uid) == Managed)
  {
    NarrowedMembers(ro, cls);
    KeptDistinct(GroupKey, KeepGroups(cls), ro.groups);
    KeptDistinct(UserKey, KeepUsers(cls), ro.users);
  }

  // --- the reader relation of an accepted roster ---

  /** GroupReaders names each reader once, never the group itself, and only declared groups. */
  lemma ReadersSound(ro: Roster, cls: Classifier, policy: Policy, g: Group)
    requires Accepted(ro, cls, policy) && g in ro.groups
    ensures var rs := GroupReaders(ro.groups, g);
            Distinct(Self, rs) && g.name !in rs && forall r :: r in rs ==> r in GroupNames(ro.groups)
  {
    assert GroupAllowed(ro, cls, policy, g);
    AddReadersDistinct(g.readers, ro.groups, g);
    forall r | r in GroupReaders(ro.groups, g) ensures r != g.name && r in GroupNames(ro.groups) {
      GroupReadersExact(ro.groups, g, r);
    }
  }
}
