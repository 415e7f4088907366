/** The single-page app's route table and its `beforeEach` navigation guard.
    The guard reads the token and the role kept in session storage; a missing
    entry is `None`. */
module Router {
  import opened Base

  /** A route's `meta`: `requiresAuth` (absent reads as false) and `role`. */
  datatype Meta = Meta(requiresAuth: bool, role: Option<string>)

  datatype Route = Route(path: string, meta: Meta)

  /** What the guard calls: `next()` or `next(path)`. */
  datatype Nav = Proceed | Redirect(path: string)

  const Open := Meta(false, None)

  function Protected(role: string): Meta {
    Meta(true, Some(role))
  }

  /** The `routes` array, in order. */
  const Routes: seq<Route> := [
    Route("/", Open),
    Route("/login/admin", Open),
    Route("/login/doctor", Open),
    Route("/login/patient", Open),
    Route("/register", Open),
    Route("/admin", Protected("admin")),
    Route("/doctor", Protected("doctor")),
    Route("/patient", Protected("patient")),
    Route("/patient/history", Protected("patient")),
    Route("/patient/profile", Protected("patient")),
    Route("/doctor/patient-history/:id", Protected("doctor"))
  ]

  /** JavaScript truthiness of a session-storage value: present and non-empty. */
  predicate Truthy(v: Option<string>) {
    v.Some? && v.value != ""
  }

  /** The dashboard a signed-in user of `role` is sent to after knocking on a
      page of another role. */
  function HomeOf(role: Option<string>): (path: string)
    ensures role == Some("admin") ==> path == "/admin"
    ensures role == Some("doctor") ==> path == "/doctor"
    ensures role == Some("patient") ==> path == "/patient"
    ensures role !in {Some("admin"), Some("doctor"), Some("patient")} ==> path == "/"
  {
    if role == Some("admin") then "/admin"
    else if role == Some("doctor") then "/doctor"
    else if role == Some("patient") then "/patient"
    else "/"
  }

  /** The `beforeEach` guard for a navigation to a route with `meta`. */
  function Guard(meta: Meta, token: Option<string>, role: Option<string>): (r: Nav)
    ensures !meta.requiresAuth ==> r == Proceed
    ensures meta.requiresAuth && !Truthy(token) ==> r == Redirect("/")
    ensures meta.requiresAuth && Truthy(token) ==>
              (r == Proceed <==> !Truthy(meta.role) || meta.role == role)
    ensures meta.requiresAuth && Truthy(token) && Truthy(meta.role) && meta.role != role ==>
              r == Redirect(HomeOf(role))
  {
    if !meta.requiresAuth then Proceed
    else if !Truthy(token) then Redirect("/")
    else if Truthy(meta.role) && meta.role != role then Redirect(HomeOf(role))
    else Proceed
  }

  /** The meta of the first route with this path, if any. */
  function MetaOf(path: string): (r: Option<Meta>)
    ensures r.Some? <==> exists i :: 0 <= i < |Routes| && Routes[i].path == path
  {
    MetaIn(Routes, path)
  }

  function MetaIn(routes: seq<Route>, path: string): (r: Option<Meta>)
    ensures r.Some? <==> exists i :: 0 <= i < |routes| && routes[i].path == path
    ensures r.Some? ==> exists i :: 0 <= i < |routes| && routes[i].path == path && routes[i].meta == r.value
  {
    if routes == [] then None
    else if routes[0].path == path then Some(routes[0].meta)
    else
      var r := MetaIn(routes[1..], path);
      assert forall i :: 1 <= i < |routes| ==> routes[i] == routes[1..][i - 1];
      assert forall i :: 0 <= i < |routes[1..]| ==> routes[1..][i] == routes[i + 1];
      r
  }

  /** Every redirect lands on a route of the table that lets the same session
      through, so the guard never redirects twice in a row. */
  lemma NoRedirectLoop(i: nat, token: Option<string>, role: Option<string>)
    requires i < |Routes|
    ensures var nav := Guard(Routes[i].meta, token, role);
            nav.Redirect? ==>
              && MetaOf(nav.path).Some?
              && Guard(MetaOf(nav.path).value, token, role) == Proceed
  {
    var nav := Guard(Routes[i].meta, token, role);
    LookupOfDashboards();
    if nav.Redirect? && nav.path != "/" {
      assert Truthy(token);
      assert nav.path == HomeOf(role);
      if role == Some("admin") {
        assert MetaOf(nav.path) == Some(Protected("admin"));
      } else if role == Some("doctor") {
        assert MetaOf(nav.path) == Some(Protected("doctor"));
      } else {
        assert role == Some("patient");
        assert MetaOf(nav.path) == Some(Protected("patient"));
      }
    }
  }

  /** The four redirect targets and their metas. */
  lemma LookupOfDashboards()
    ensures MetaOf("/") == Some(Open)
    ensures MetaOf("/admin") == Some(Protected("admin"))
    ensures MetaOf("/doctor") == Some(Protected("doctor"))
    ensures MetaOf("/patient") == Some(Protected("patient"))
  {
    assert Routes[0].path == "/";
    LookupAdmin();
    LookupDoctor();
    LookupPatient();
  }

  lemma LookupAdmin()
    ensures MetaOf("/admin") == Some(Protected("admin"))
  {
    forall j | 0 <= j < 5 ensures Routes[j].path != "/admin" {
      assert j == 0 || j == 1 || j == 2 || j == 3 || j == 4;
    }
    LookupFrom(Routes, 5, "/admin");
  }

  lemma LookupDoctor()
    ensures MetaOf("/doctor") == Some(Protected("doctor"))
  {
    forall j | 0 <= j < 6 ensures Routes[j].path != "/doctor" {
      assert j == 0 || j == 1 || j == 2 || j == 3 || j == 4 || j == 5;
    }
    LookupFrom(Routes, 6, "/doctor");
  }

  lemma LookupPatient()
    ensures MetaOf("/patient") == Some(Protected("patient"))
  {
    forall j | 0 <= j < 7 ensures Routes[j].path != "/patient" {
      assert j == 0 || j == 1 || j == 2 || j == 3 || j == 4 || j == 5 || j == 6;
    }
    LookupFrom(Routes, 7, "/patient");
  }

  /** Looking a path up finds the entry at `k` when no earlier entry has
      that path. The paths in the table are distinct, so the entry with that
      path is found. */
  lemma {:induction false} LookupFrom(routes: seq<Route>, k: nat, path: string)
    requires k < |routes| && routes[k].path == path
    requires forall j :: 0 <= j < k ==> routes[j].path != path
    ensures MetaIn(routes, path) == Some(routes[k].meta)
  {
    if k > 0 {
      var tail := routes[1..];
      assert tail[k - 1] == routes[k];
      forall j | 0 <= j < k - 1 ensures tail[j].path != path {
        assert tail[j] == routes[j + 1];
      }
      LookupFrom(tail, k - 1, path);
    }
  }

  /** A page protected for one role turns away every other signed-in role,
      sending each to its own dashboard. */
  lemma WrongRoleGoesHome(i: nat, token: Option<string>, role: string)
    requires i < |Routes| && Routes[i].meta.requiresAuth && Truthy(token)
    requires role in {"admin", "doctor", "patient"} && Routes[i].meta.role != Some(role)
    ensures Guard(Routes[i].meta, token, Some(role)) == Redirect("/" + role)
  {
  }
}
