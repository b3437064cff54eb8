/** The team directory of src/components/TeamMembers.tsx over the static
    list of src/data/teamMembers.ts: one section per department of the
    role-'member' entries, in order of first appearance, each listing that
    department's members in list order. */
module TeamMembers {
  import opened Seqs
  import opened Types

  datatype TeamMember = TeamMember(
    id: string,
    name: string,
    email: string,
    role: Role,
    department: string,
    avatar: string)

  /** The entries of the `teamMembers` constant, in order. */
  const John: TeamMember := TeamMember("1", "John Manager", "manager@demo.com", Manager, "Management", "https://ui-avatars.com/api/?name=John+Manager&background=0D8ABC&color=fff")
  const Alice: TeamMember := TeamMember("2", "Alice Johnson", "alice@demo.com", Member, "Development", "https://ui-avatars.com/api/?name=Alice+Johnson&background=2ECC71&color=fff")
  const Bob: TeamMember := TeamMember("3", "Bob Smith", "bob@demo.com", Member, "Design", "https://ui-avatars.com/api/?name=Bob+Smith&background=E74C3C&color=fff")
  const Carol: TeamMember := TeamMember("4", "Carol Williams", "carol@demo.com", Member, "Marketing", "https://ui-avatars.com/api/?name=Carol+Williams&background=F39C12&color=fff")
  const David: TeamMember := TeamMember("5", "David Brown", "david@demo.com", Member, "Development", "https://ui-avatars.com/api/?name=David+Brown&background=8E44AD&color=fff")
  const Eva: TeamMember := TeamMember("6", "Eva Martinez", "eva@demo.com", Member, "Design", "https://ui-avatars.com/api/?name=Eva+Martinez&background=16A085&color=fff")
  const Frank: TeamMember := TeamMember("7", "Frank Wilson", "frank@demo.com", Member, "Marketing", "https://ui-avatars.com/api/?name=Frank+Wilson&background=D35400&color=fff")
  const Grace: TeamMember := TeamMember("8", "Grace Lee", "grace@demo.com", Member, "Development", "https://ui-avatars.com/api/?name=Grace+Lee&background=27AE60&color=fff")
  const Henry: TeamMember := TeamMember("9", "Henry Garcia", "henry@demo.com", Member, "Design", "https://ui-avatars.com/api/?name=Henry+Garcia&background=C0392B&color=fff")
  const Isabel: TeamMember := TeamMember("10", "Isabel Chen", "isabel@demo.com", Member, "Marketing", "https://ui-avatars.com/api/?name=Isabel+Chen&background=2980B9&color=fff")

  const Directory: seq<TeamMember> := [John, Alice, Bob, Carol, David, Eva, Frank, Grace, Henry, Isabel]

  function IsMember(): TeamMember -> bool
  {
    (m: TeamMember) => m.role == Member
  }

  function DepartmentOf(): TeamMember -> string
  {
    (m: TeamMember) => m.department
  }

  /** `[...new Set(members.filter(m => m.role === 'member').map(m => m.department))]`. */
  function Departments(members: seq<TeamMember>): (r: seq<string>)
    ensures NoDup(r)
    ensures forall d :: d in r <==> exists m :: m in members && m.role == Member && m.department == d
  {
    var staff := Filter(members, IsMember());
    var r := Distinct(Map(staff, DepartmentOf()));
    forall d ensures d in r <==> exists m :: m in members && m.role == Member && m.department == d {
      if d in r {
        var i :| 0 <= i < |staff| && Map(staff, DepartmentOf())[i] == d;
        assert staff[i] in staff;
      } else {
        forall m | m in members && m.role == Member ensures m.department != d {
          var i :| 0 <= i < |staff| && staff[i] == m;
          assert Map(staff, DepartmentOf())[i] == m.department;
        }
      }
    }
    r
  }

  function InSection(department: string): TeamMember -> bool
  {
    (m: TeamMember) => m.department == department && m.role == Member
  }

  /** The cards under one department's heading. */
  function Section(members: seq<TeamMember>, department: string): seq<TeamMember>
  {
    Filter(members, InSection(department))
  }

  /** The headings appear in the order the departments first occur among the
      role-'member' entries. */
  lemma DepartmentsInFirstSeenOrder(members: seq<TeamMember>)
    ensures var staffDepartments := Map(Filter(members, IsMember()), DepartmentOf());
      forall i, j :: 0 <= i < j < |Departments(members)| ==>
        FirstIndex(staffDepartments, Departments(members)[i])
          < FirstIndex(staffDepartments, Departments(members)[j])
  {
    DistinctFirstSeenOrder(Map(Filter(members, IsMember()), DepartmentOf()));
  }

  /** A section holds exactly the members of its department, in list order
      and with every repetition. */
  lemma SectionIsDepartment(members: seq<TeamMember>, department: string, m: TeamMember)
    ensures m in Section(members, department) <==> m in members && m.role == Member && m.department == department
    ensures IsSubsequence(Section(members, department), members)
    ensures multiset(Section(members, department))[m]
      == if m.role == Member && m.department == department then multiset(members)[m] else 0
  {
    FilterIsSubsequence(members, InSection(department));
    FilterMultiset(members, InSection(department), m);
  }

  /** Every role-'member' entry is listed under exactly one heading, and a
      manager under none. */
  lemma EachMemberInOneSection(members: seq<TeamMember>, m: TeamMember)
    requires m in members
    ensures m.role == Member ==>
      m.department in Departments(members)
      && forall d :: d in Departments(members) ==> (m in Section(members, d) <==> d == m.department)
    ensures m.role == Manager ==> forall d :: m !in Section(members, d)
  {
  }

  /** The directory shows three sections, in this order. */
  lemma DirectorySections()
    ensures Departments(Directory) == ["Development", "Design", "Marketing"]
  {
    var staff := [Alice, Bob, Carol, David, Eva, Frank, Grace, Henry, Isabel];
    assert Directory[0].role == Manager && Directory[1..] == staff;
    SkipLeading(Directory, IsMember());
    AllStaff(Alice, Bob, Carol, David, Eva, Frank, Grace, Henry, Isabel);
    var dev, des, mkt := "Development", "Design", "Marketing";
    assert Alice.department == dev && Bob.department == des && Carol.department == mkt;
    assert David.department == dev && Eva.department == des && Frank.department == mkt;
    assert Grace.department == dev && Henry.department == des && Isabel.department == mkt;
    DepartmentsOfNine(Alice, Bob, Carol, David, Eva, Frank, Grace, Henry, Isabel);
    assert |dev| == 11 && |des| == 6 && |mkt| == 9;
    RepeatedRoundsDistinct(dev, des, mkt);
  }

  /** Nine role-'member' entries are all kept by the role filter. */
  lemma AllStaff(a: TeamMember, b: TeamMember, c: TeamMember, d: TeamMember, e: TeamMember,
                 f: TeamMember, g: TeamMember, h: TeamMember, i: TeamMember)
    requires a.role == Member && b.role == Member && c.role == Member && d.role == Member
    requires e.role == Member && f.role == Member && g.role == Member && h.role == Member
    requires i.role == Member
    ensures Filter([a, b, c, d, e, f, g, h, i], IsMember()) == [a, b, c, d, e, f, g, h, i]
  {
    var s := [a, b, c, d, e, f, g, h, i];
    forall x | x in s ensures IsMember()(x) {
    }
    assert forall k :: 0 <= k < |s| ==> s[k] in s;
    FilterAll(s, IsMember());
  }

  /** The departments of nine entries, in order. */
  lemma DepartmentsOfNine(a: TeamMember, b: TeamMember, c: TeamMember, d: TeamMember, e: TeamMember,
                          f: TeamMember, g: TeamMember, h: TeamMember, i: TeamMember)
    ensures Map([a, b, c, d, e, f, g, h, i], DepartmentOf())
      == [a.department, b.department, c.department, d.department, e.department,
          f.department, g.department, h.department, i.department]
  {
  }

  lemma SkipLeading<T(!new)>(s: seq<T>, p: T -> bool)
    requires s != [] && !p(s[0])
    ensures Filter(s, p) == Filter(s[1..], p)
  {
  }

  /** Three different values listed round after round are listed once each. */
  lemma RepeatedRoundsDistinct<T(!new)>(a: T, b: T, c: T)
    requires a != b && a != c && b != c
    ensures Distinct([a, b, c, a, b, c, a, b, c]) == [a, b, c]
  {
    FirstRound(a, b, c);
    NextRound([a, b, c], a, b, c);
    assert [a, b, c] + [a, b, c] == [a, b, c, a, b, c];
    NextRound([a, b, c, a, b, c], a, b, c);
    assert [a, b, c, a, b, c] + [a, b, c] == [a, b, c, a, b, c, a, b, c];
  }

  lemma FirstRound<T(!new)>(a: T, b: T, c: T)
    requires a != b && a != c && b != c
    ensures Distinct([a, b, c]) == [a, b, c]
  {
    DistinctSnoc([], a);
    assert [] + [a] == [a];
    DistinctSnoc([a], b);
    assert [a] + [b] == [a, b];
    DistinctSnoc([a, b], c);
    assert [a, b] + [c] == [a, b, c];
  }

  /** One more round of the same three values adds nothing new. */
  lemma NextRound<T(!new)>(p: seq<T>, a: T, b: T, c: T)
    requires Distinct(p) == [a, b, c]
    ensures Distinct(p + [a, b, c]) == [a, b, c]
  {
    var q1 := p + [a];
    var q2 := q1 + [b];
    var q3 := q2 + [c];
    assert Distinct(q1) == [a, b, c] by { DistinctSnoc(p, a); }
    assert Distinct(q2) == [a, b, c] by { DistinctSnoc(q1, b); }
    assert Distinct(q3) == [a, b, c] by { DistinctSnoc(q2, c); }
    assert q3 == p + [a, b, c];
  }
}
