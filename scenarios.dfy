/** Clients of the store and the handlers: what the contracts alone let a caller conclude. */
module Scenarios {
  import opened Wrappers
  import opened Models
  import opened Views

  method NewStore() returns (store: UserStore)
    ensures store.Valid() && store.users == map[] && fresh(store)
  {
    store := new UserStore((e: Option<string>) => e.GetOr(""), (p: string) => "h:" + p);
  }

  /**
   * A superuser cannot be made with is_staff=False or a blank or taken name;
   * without flags it is an Admin with both flags.
   */
  method SuperuserFlags() {
    var store := NewStore();
    var bad := store.CreateSuperuser("root", None, Some("pw"), Some(false), None);
    assert bad == Failure(StaffNotTrue) && store.users == map[];
    var blank := store.CreateSuperuser("", None, Some("pw"), None, None);
    assert blank == Failure(UsernameNotSet) && blank.error.Message() == Some("The Username must be set");
    var root := store.CreateSuperuser("root", None, Some("pw"), None, None);
    assert root.Success? && root.value.role == "Admin" && root.value.isStaff && root.value.isSuperuser;
    assert store.users[root.value.id].username == "root";
    var twice := store.CreateSuperuser("root", None, Some("pw"), None, None);
    assert twice == Failure(UsernameExists);
  }

  /**
   * An Admin creates Carol as a Manager; Carol's delete of herself is refused
   * and changes nothing; a delete on the list route has no row to look up.
   */
  method ManagerCannotDelete(admin: User) {
    var store := NewStore();
    var reply := Create(store, admin.(role := "Admin"), NewUser("carol", None, None, Some("Manager")));
    assert reply.Created? && reply.Status() == 201 && reply.user.role == "Manager";
    var carol := reply.user;
    var denied := Destroy(store, carol, Some(carol.id));
    assert denied.Status() == 403 && denied.detail == "Only Admins can delete users.";
    assert carol.id in store.users;
    var listRoute := Destroy(store, carol, None);
    assert listRoute.Status() == 403;
    var adminListRoute := Destroy(store, admin.(role := "Admin"), None);
    assert adminListRoute == MissingLookup && carol.id in store.users;
  }

  /** A second "alice" is refused; the first is an Employee that sees only itself. */
  method DuplicateUsername() {
    var store := NewStore();
    var alice := store.CreateUser("alice", None, None, None, None, None);
    assert alice.Success? && alice.value.role == "Employee" && alice.value.password == Unusable;
    var again := store.CreateUser("alice", None, None, None, None, None);
    assert again == Failure(UsernameExists);
    OtherScopeIsSelf(alice.value, store.users);
    assert |Scope(alice.value, store.users)| == 1;
  }
}
