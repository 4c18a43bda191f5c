/** The dashboard shell: the per-role navigation table, the role read
    from the current path, and which navigation item is highlighted. */
module DashboardLayout {
  import opened Options
  import opened Strings

  /** A navigation entry; its icon is presentation only. */
  datatype NavItem = NavItem(name: string, href: string)

  /** Each role's landing page; the role's other links extend it. */
  const PatientHome: string := "/dashboard/patient"
  const DoctorHome: string := "/dashboard/doctor"
  const AdminHome: string := "/dashboard/admin"

  const PatientNav: seq<NavItem> := [
    NavItem("Dashboard", PatientHome),
    NavItem("Pending Records", PatientHome + "/pending"),
    NavItem("Appointments", PatientHome + "/appointments"),
    NavItem("Settings", PatientHome + "/settings")]

  const DoctorNav: seq<NavItem> := [
    NavItem("Dashboard", DoctorHome),
    NavItem("Patient Search", DoctorHome + "/patient-search"),
    NavItem("Create Record", DoctorHome + "/create-record"),
    NavItem("Reports", DoctorHome + "/reports"),
    NavItem("Settings", DoctorHome + "/settings")]

  const AdminNav: seq<NavItem> := [
    NavItem("Dashboard", AdminHome),
    NavItem("Manage Users", AdminHome + "/users"),
    NavItem("Reports", AdminHome + "/reports"),
    NavItem("Settings", AdminHome + "/settings")]

  const Roles: set<string> := {"patient", "doctor", "admin"}

  /** `navigationType[role]`; any other key has no list. */
  function NavigationFor(role: string): (r: Option<seq<NavItem>>)
    ensures r.Some? <==> role in Roles
  {
    if role == "patient" then Some(PatientNav)
    else if role == "doctor" then Some(DoctorNav)
    else if role == "admin" then Some(AdminNav)
    else None
  }

  /** `pathname.split("/")[2]`, absent when the path has fewer than three
      pieces. */
  function RoleOf(pathname: string): (r: Option<string>)
    ensures r.Some? <==> Count(pathname, '/') >= 2
    ensures r.Some? ==> '/' !in r.value
  {
    var parts := Split(pathname, '/');
    if |parts| > 2 then Some(parts[2]) else None
  }

  /** The navigation list the layout renders for a path. */
  function Navigation(pathname: string): Option<seq<NavItem>> {
    match RoleOf(pathname)
    case Some(role) => NavigationFor(role)
    case None => None
  }

  /** `pathname === item.href`: exact equality, no prefix matching. */
  predicate IsActive(pathname: string, item: NavItem) {
    pathname == item.href
  }

  /** A separator-free role followed by nothing or by "/..." splits into
      the role and the pieces of the rest. */
  lemma SplitRoleTail(role: string, tail: string)
    requires '/' !in role
    requires tail == "" || tail[0] == '/'
    ensures Split(role + tail, '/') == [role] + (if tail == "" then [] else Split(tail[1..], '/'))
  {
    if tail == "" {
      assert role + tail == role;
      SplitFree(role, '/');
    } else {
      assert role + tail == role + ['/'] + tail[1..];
      SplitPrefix(role, tail[1..], '/');
    }
  }

  /** The third piece of "/dashboard/<role>" or "/dashboard/<role>/..."
      is the role, for any separator-free role. */
  lemma RoleOfDashboardPath(role: string, tail: string)
    requires '/' !in role
    requires tail == "" || tail[0] == '/'
    ensures RoleOf("/dashboard/" + role + tail) == Some(role)
  {
    var d := "dashboard";
    var p := "/dashboard/" + role + tail;
    assert '/' !in d by {
      forall k | 0 <= k < |d|
        ensures d[k] != '/'
      {
      }
    }
    var q := d + ['/'] + (role + tail);
    assert p == [] + ['/'] + q;
    SplitPrefix([], q, '/');
    SplitPrefix(d, role + tail, '/');
    SplitRoleTail(role, tail);
    assert Split(p, '/')[2] == role;
  }

  /** The example from the layout: the pending page belongs to the patient. */
  lemma PendingPathIsPatient()
    ensures RoleOf("/dashboard/patient/pending") == Some("patient")
    ensures Navigation("/dashboard/patient/pending") == Some(PatientNav)
  {
    RoleOfDashboardPath("patient", "/pending");
    assert "/dashboard/patient/pending" == "/dashboard/" + "patient" + "/pending";
  }

  /** Links whose path continues "/dashboard/<role>" all carry that role. */
  lemma LinksCarryRole(role: string, items: seq<NavItem>, tails: seq<string>)
    requires '/' !in role
    requires |tails| == |items|
    requires forall i :: 0 <= i < |items| ==>
               (tails[i] == "" || tails[i][0] == '/') && items[i].href == "/dashboard/" + role + tails[i]
    ensures forall item :: item in items ==> RoleOf(item.href) == Some(role)
  {
    forall i | 0 <= i < |items|
      ensures RoleOf(items[i].href) == Some(role)
    {
      RoleOfDashboardPath(role, tails[i]);
    }
  }

  const PatientTails: seq<string> := ["", "/pending", "/appointments", "/settings"]

  lemma PatientHrefs()
    ensures |PatientTails| == |PatientNav|
    ensures forall i :: 0 <= i < |PatientNav| ==> PatientNav[i].href == "/dashboard/" + "patient" + PatientTails[i]
  {
    assert PatientHome == "/dashboard/" + "patient";
    assert PatientHome + "" == PatientHome;
  }

  lemma PatientLinks()
    ensures forall item :: item in PatientNav ==> RoleOf(item.href) == Some("patient")
  {
    PatientHrefs();
    LinksCarryRole("patient", PatientNav, PatientTails);
  }

  const DoctorTails: seq<string> := ["", "/patient-search", "/create-record", "/reports", "/settings"]

  lemma DoctorHrefs()
    ensures |DoctorTails| == |DoctorNav|
    ensures forall i :: 0 <= i < |DoctorNav| ==> DoctorNav[i].href == "/dashboard/" + "doctor" + DoctorTails[i]
  {
    assert DoctorHome == "/dashboard/" + "doctor";
    assert DoctorHome + "" == DoctorHome;
  }

  lemma DoctorLinks()
    ensures forall item :: item in DoctorNav ==> RoleOf(item.href) == Some("doctor")
  {
    DoctorHrefs();
    LinksCarryRole("doctor", DoctorNav, DoctorTails);
  }

  const AdminTails: seq<string> := ["", "/users", "/reports", "/settings"]

  lemma AdminHrefs()
    ensures |AdminTails| == |AdminNav|
    ensures forall i :: 0 <= i < |AdminNav| ==> AdminNav[i].href == "/dashboard/" + "admin" + AdminTails[i]
  {
    assert AdminHome == "/dashboard/" + "admin";
    assert AdminHome + "" == AdminHome;
  }

  lemma AdminLinks()
    ensures forall item :: item in AdminNav ==> RoleOf(item.href) == Some("admin")
  {
    AdminHrefs();
    LinksCarryRole("admin", AdminNav, AdminTails);
  }

  /** Every link of a role's list leads to a path of that same role, so
      following a link keeps the same navigation list. */
  lemma NavigationLinksStayInRole(role: string)
    requires role in Roles
    ensures forall item :: item in NavigationFor(role).value ==>
              RoleOf(item.href) == Some(role) && Navigation(item.href) == NavigationFor(role)
  {
    PatientLinks();
    DoctorLinks();
    AdminLinks();
  }

  /** Within each role the links are pairwise distinct. */
  predicate DistinctHrefs(items: seq<NavItem>) {
    forall i, j :: 0 <= i < |items| && 0 <= j < |items| && items[i].href == items[j].href ==> i == j
  }

  lemma HrefsDistinct(role: string)
    requires role in Roles
    ensures DistinctHrefs(NavigationFor(role).value)
  {
  }

  /** The indices of the highlighted items for a path. */
  function ActiveIndices(pathname: string, items: seq<NavItem>): (r: set<nat>)
    ensures forall i: nat :: i in r <==> i < |items| && IsActive(pathname, items[i])
  {
    set i: nat | i < |items| && IsActive(pathname, items[i])
  }

  /** With distinct links, a highlighted item is the only highlighted
      one, for any path. */
  lemma AtMostOneActive(items: seq<NavItem>, pathname: string)
    requires DistinctHrefs(items)
    ensures forall i :: 0 <= i < |items| && IsActive(pathname, items[i]) ==>
              ActiveIndices(pathname, items) == {i}
    ensures |ActiveIndices(pathname, items)| <= 1
  {
    var act := ActiveIndices(pathname, items);
    forall i | 0 <= i < |items| && IsActive(pathname, items[i])
      ensures act == {i}
    {
      forall j | j in act
        ensures j == i
      {
        assert items[j].href == items[i].href;
      }
    }
    if act != {} {
      var i :| i in act;
      assert act == {i};
    }
  }

  /** So for every role's list, whatever the path. */
  lemma AtMostOneActiveInRole(role: string, pathname: string)
    requires role in Roles
    ensures |ActiveIndices(pathname, NavigationFor(role).value)| <= 1
  {
    HrefsDistinct(role);
    AtMostOneActive(NavigationFor(role).value, pathname);
  }

  /** A role's landing link is a prefix of its other links, yet only the
      exact path lights it: on a sub-page the landing item is not active. */
  lemma PrefixIsNotActive(role: string, page: string)
    requires role in Roles
    ensures !IsActive("/dashboard/" + role + "/" + page, NavigationFor(role).value[0])
  {
    var p := "/dashboard/" + role + "/" + page;
    assert |p| > |NavigationFor(role).value[0].href|;
  }

  /** A path whose third piece is not a role has no navigation list. */
  lemma UnknownRoleHasNoNavigation(pathname: string)
    requires RoleOf(pathname).None? || RoleOf(pathname).value !in Roles
    ensures Navigation(pathname).None?
  {
  }
}
