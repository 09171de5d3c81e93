/** The navigation list of the application shell, built from the current
    user's role. Icons are left out; an item is its caption and path.
 */
module Layout {
  import opened Types

  datatype NavItem = NavItem(caption: string, path: string)

  /** `currentUser?.role === 'ADMIN'`: false when nobody is signed in. */
  predicate IsAdmin(currentUser: Option<User>) {
    currentUser.Some? && currentUser.value.role == Admin
  }

  /** `navItems`: today, tasks and profiles first, the users page for
      administrators only, settings last. Paths serve as render keys, so they
      are pairwise distinct. */
  function NavItems(currentUser: Option<User>): (r: seq<NavItem>)
    ensures |r| == if IsAdmin(currentUser) then 5 else 4
    ensures r[0].path == "/" && r[1].path == "/tasks" && r[2].path == "/profiles"
    ensures r[|r| - 1].path == "/settings"
    ensures (exists k :: 0 <= k < |r| && r[k].path == "/users") <==> IsAdmin(currentUser)
    ensures forall i, j :: 0 <= i < j < |r| ==> r[i].path != r[j].path
  {
    var items := [
      NavItem("Hoje", "/"),
      NavItem("Tarefas", "/tasks"),
      NavItem("Idosos", "/profiles")
    ];
    var items := if IsAdmin(currentUser) then items + [NavItem("Usuários", "/users")] else items;
    var r := items + [NavItem("Config", "/settings")];
    assert IsAdmin(currentUser) ==> r[3].path == "/users";
    r
  }
}
