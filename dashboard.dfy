/**
 * The dashboard layout's server-side logic: the route guard, which turns the
 * identity provider's session user into the props for `getData` or a
 * redirect, and `getData` itself, which finds the User row by email and
 * inserts one only when there is none.
 */
module Dashboard {
  import opened Wrappers
  import opened UserStore

  /** The identity provider's session user, as `getUser()` returns it. */
  datatype SessionUser = SessionUser(
    id: string,
    email: Option<string>,
    givenName: Option<string>,
    familyName: Option<string>,
    picture: Option<string>)

  /** The argument of `getData`. */
  datatype Props = Props(
    email: string,
    id: string,
    firstName: Option<string>,
    lastName: Option<string>,
    profileImage: Option<string>)

  /** Whether the lookup and the insert each reach the store. */
  datatype Connectivity = Connectivity(lookup: bool, create: bool)

  /** What a dashboard request ends in. */
  datatype Page = Redirect(to: string) | Rendered | Failed(error: DbError)

  /** The outcome of `getData`, the table after it and the store calls it made. */
  datatype Step = Step(status: Outcome<DbError>, users: map<string, User>, calls: seq<Call>)

  /** The outcome of one dashboard request, the table after it and the store calls it made. */
  datatype Response = Response(page: Page, users: map<string, User>, calls: seq<Call>)

  /** JavaScript truthiness of an optional string: present and non-empty. */
  predicate Truthy(s: Option<string>)
  {
    s.Some? && s.value != ""
  }

  /** `s ?? ""` */
  function OrEmpty(s: Option<string>): string
  {
    if s.Some? then s.value else ""
  }

  /**
   * The name a new row gets: the first name, one space, the last name, with a
   * missing part read as the empty string and nothing trimmed.
   */
  function DeriveName(first: Option<string>, last: Option<string>): (name: string)
    ensures |name| == |OrEmpty(first)| + 1 + |OrEmpty(last)|
    ensures name[..|OrEmpty(first)|] == OrEmpty(first)
    ensures name[|OrEmpty(first)|] == ' '
    ensures name[|OrEmpty(first)| + 1..] == OrEmpty(last)
  {
    OrEmpty(first) + " " + OrEmpty(last)
  }

  /**
   * The route guard: no session user, or one whose email is falsy, is
   * turned away; otherwise the session user's fields become the props of
   * `getData`, the email among them non-empty.
   */
  function Guard(session: Option<SessionUser>): (props: Option<Props>)
    ensures props.None? <==> session.None? || !Truthy(session.value.email)
    ensures props.Some? ==> props.value.email != "" && session.value.email == Some(props.value.email)
    ensures props.Some? ==> props.value.id == session.value.id
    ensures props.Some? ==> props.value.firstName == session.value.givenName
    ensures props.Some? ==> props.value.lastName == session.value.familyName
    ensures props.Some? ==> props.value.profileImage == session.value.picture
  {
    if session.None? || !Truthy(session.value.email) then None
    else
      var u := session.value;
      Some(Props(u.email.value, u.id, u.givenName, u.familyName, u.picture))
  }

  /** The row `getData` inserts for a first visit. */
  function NewUser(p: Props): User
  {
    User(p.id, p.email, DeriveName(p.firstName, p.lastName))
  }

  /**
   * What `getData` does to a table `m`: one lookup by email; an insert only
   * when the lookup succeeded and found nothing; any throw propagated.
   */
  function Reconcile(m: map<string, User>, p: Props, net: Connectivity): (r: Step)
    ensures 1 <= |r.calls| <= 2 && r.calls[0] == Lookup(p.email)
    ensures |r.calls| == 2 <==> net.lookup && p.email !in m
    ensures |r.calls| == 2 ==> r.calls[1] == Insert(NewUser(p))
    ensures !net.lookup ==> r == Step(Fail(Unavailable), m, [Lookup(p.email)])
    ensures net.lookup && p.email in m ==> r == Step(Pass, m, [Lookup(p.email)])
    ensures net.lookup && p.email !in m ==> (r.status.Pass? <==> net.create && p.id !in Ids(m))
    ensures net.lookup && p.email !in m && !net.create ==> r.status == Fail(Unavailable)
    ensures net.lookup && p.email !in m && net.create && p.id in Ids(m) ==> r.status == Fail(UniqueViolation(IdKey))
    ensures r.status.Pass? ==> p.email in r.users
    ensures r.status.Pass? && p.email !in m ==> r.users == m[p.email := NewUser(p)] && |r.users| == |m| + 1
    ensures r.status.Fail? ==> r.users == m
    ensures forall e :: e in m ==> e in r.users && r.users[e] == m[e]
    ensures TableValid(m) ==> TableValid(r.users)
  {
    var found := FindResult(m, p.email, net.lookup);
    if found.Failure? then Step(Fail(found.error), m, [Lookup(p.email)])
    else if found.value.Some? then Step(Pass, m, [Lookup(p.email)])
    else
      var c := CreateResult(m, NewUser(p), net.create);
      var status := if c.result.Success? then Pass else Fail(c.result.error);
      Step(status, c.users, [Lookup(p.email), Insert(NewUser(p))])
  }

  /**
   * One dashboard request: a redirect to "/" that neither reads nor writes
   * the store, or the reconciliation followed by the rendered page, or the
   * reconciliation's throw (no page and no redirect).
   */
  function Visit(m: map<string, User>, session: Option<SessionUser>, net: Connectivity): (r: Response)
    ensures Guard(session).None? ==> r == Response(Redirect("/"), m, [])
    ensures r.page.Redirect? <==> Guard(session).None?
    ensures Guard(session).Some? ==> (r.page.Rendered? <==> Reconcile(m, Guard(session).value, net).status.Pass?)
    ensures Guard(session).Some? && r.page.Failed? ==> Reconcile(m, Guard(session).value, net).status == Fail(r.page.error)
    ensures Guard(session).Some? && !net.lookup ==> r.page == Failed(Unavailable)
    ensures Guard(session).Some? ==>
      r.users == Reconcile(m, Guard(session).value, net).users && r.calls == Reconcile(m, Guard(session).value, net).calls
    ensures r.page.Rendered? ==> Guard(session).value.email in r.users
    ensures r.page.Failed? ==> r.users == m && r.calls != []
    ensures forall e :: e in m ==> e in r.users && r.users[e] == m[e]
    ensures TableValid(m) ==> TableValid(r.users)
  {
    match Guard(session)
    case None => Response(Redirect("/"), m, [])
    case Some(p) =>
      var s := Reconcile(m, p, net);
      Response(if s.status.Pass? then Rendered else Failed(s.status.error), s.users, s.calls)
  }

  /** `getData`: look the user up by email and create the row only if it is missing. */
  method GetData(db: UserTable, p: Props, net: Connectivity) returns (status: Outcome<DbError>)
    requires db.Valid()
    modifies db
    ensures db.Valid()
    ensures var r := Reconcile(old(db.users), p, net);
      status == r.status && db.users == r.users && db.calls == old(db.calls) + r.calls
  {
    var user := db.FindUnique(p.email, net.lookup);
    if user.Failure? {
      return Fail(user.error);
    }
    if user.value.None? {
      var name := DeriveName(p.firstName, p.lastName);
      var created := db.Create(User(p.id, p.email, name), net.create);
      if created.Failure? {
        return Fail(created.error);
      }
    }
    return Pass;
  }

  /** `DashboardLayout`: guard the route, reconcile the user, then render. */
  method DashboardLayout(db: UserTable, session: Option<SessionUser>, net: Connectivity) returns (page: Page)
    requires db.Valid()
    modifies db
    ensures db.Valid()
    ensures Guard(session).None? ==> page == Redirect("/") && unchanged(db)
    ensures var r := Visit(old(db.users), session, net);
      page == r.page && db.users == r.users && db.calls == old(db.calls) + r.calls
  {
    var props := Guard(session);
    if props.None? {
      return Redirect("/");
    }
    var status := GetData(db, props.value, net);
    if status.Fail? {
      return Failed(status.error);
    }
    return Rendered;
  }

  /** The literal names the derivation gives. */
  lemma NameExamples()
    ensures DeriveName(Some("Ada"), Some("Lovelace")) == "Ada Lovelace"
    ensures DeriveName(None, None) == " "
    ensures DeriveName(Some("Ada"), None) == "Ada "
    ensures DeriveName(None, Some("Lovelace")) == " Lovelace"
  {
  }

  /** Knowing where the first name ends, the name gives back both parts. */
  lemma NameSplits(f1: Option<string>, l1: Option<string>, f2: Option<string>, l2: Option<string>)
    requires DeriveName(f1, l1) == DeriveName(f2, l2)
    requires |OrEmpty(f1)| == |OrEmpty(f2)|
    ensures OrEmpty(f1) == OrEmpty(f2) && OrEmpty(l1) == OrEmpty(l2)
  {
  }

  /** Without that boundary the name is ambiguous, and a missing part reads as an empty one. */
  lemma NameLosesBoundary()
    ensures DeriveName(Some("Mary Ann"), Some("Lee")) == DeriveName(Some("Mary"), Some("Ann Lee"))
    ensures forall l :: DeriveName(None, l) == DeriveName(Some(""), l)
  {
  }

  /**
   * Once `getData` has succeeded for an email, a second run for the same
   * email, whatever its id and names, only looks the row up and changes
   * nothing.
   */
  lemma ReconcileTwice(m: map<string, User>, p: Props, q: Props, net1: Connectivity, net2: Connectivity)
    requires p.email == q.email
    requires Reconcile(m, p, net1).status.Pass?
    requires net2.lookup
    ensures var r1 := Reconcile(m, p, net1);
      Reconcile(r1.users, q, net2) == Step(Pass, r1.users, [Lookup(q.email)])
  {
  }

  /** The provider's picture never reaches the store: changing it changes nothing in the request's outcome. */
  lemma PictureIgnored(m: map<string, User>, u: SessionUser, net: Connectivity, picture: Option<string>)
    ensures var p := Guard(Some(u));
      p.Some? ==> Reconcile(m, p.value, net) == Reconcile(m, p.value.(profileImage := picture), net)
    ensures Visit(m, Some(u), net) == Visit(m, Some(u.(picture := picture)), net)
  {
  }

  /**
   * A user whose provider email changed but whose id did not is refused on
   * every visit: the lookup by the new email misses and the insert collides
   * on the id, so the request fails and the table stays as it was.
   */
  lemma ChangedEmailCollidesOnId(m: map<string, User>, p: Props, net: Connectivity, was: string)
    requires TableValid(m)
    requires was in m && m[was].id == p.id && p.email !in m
    requires net.lookup && net.create
    ensures Reconcile(m, p, net) == Step(Fail(UniqueViolation(IdKey)), m, [Lookup(p.email), Insert(NewUser(p))])
  {
  }
}
