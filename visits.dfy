/**
 * Dashboard requests served one after another against the same table: the
 * properties that the layout's reconciliation promises across visits.
 */
module Visits {
  import opened Wrappers
  import opened UserStore
  import opened Dashboard

  /** One dashboard request: the provider's session user and how the store answers. */
  datatype Request = Request(session: Option<SessionUser>, net: Connectivity)

  /** The table after serving `rs` in order, starting from `m`. */
  function Serve(m: map<string, User>, rs: seq<Request>): map<string, User>
    decreases |rs|
  {
    if rs == [] then m else Serve(Visit(m, rs[0].session, rs[0].net).users, rs[1..])
  }

  /** The request gets past the guard with email `e`. */
  predicate Admits(r: Request, e: string)
  {
    Guard(r.session).Some? && Guard(r.session).value.email == e
  }

  /** The emails of the requests that get past the guard. */
  function AdmittedEmails(rs: seq<Request>): (es: set<string>)
    ensures forall i :: 0 <= i < |rs| && Guard(rs[i].session).Some? ==> Guard(rs[i].session).value.email in es
    ensures "" !in es
  {
    set i | 0 <= i < |rs| && Guard(rs[i].session).Some? :: Guard(rs[i].session).value.email
  }

  /** Email and id uniqueness hold after any run of requests. */
  lemma {:induction false} ServeKeepsValid(m: map<string, User>, rs: seq<Request>)
    requires TableValid(m)
    ensures TableValid(Serve(m, rs))
    decreases |rs|
  {
    if rs != [] {
      ServeKeepsValid(Visit(m, rs[0].session, rs[0].net).users, rs[1..]);
    }
  }

  /** No run of requests deletes or rewrites a row: names and ids are never refreshed. */
  lemma {:induction false} ServeKeepsRows(m: map<string, User>, rs: seq<Request>)
    ensures forall e :: e in m ==> e in Serve(m, rs) && Serve(m, rs)[e] == m[e]
    decreases |rs|
  {
    if rs != [] {
      ServeKeepsRows(Visit(m, rs[0].session, rs[0].net).users, rs[1..]);
    }
  }

  /** Rows appear only for emails that got past the guard, so never for an empty email. */
  lemma {:induction false} ServeAddsOnlyAdmitted(m: map<string, User>, rs: seq<Request>)
    ensures Serve(m, rs).Keys <= m.Keys + AdmittedEmails(rs)
    decreases |rs|
  {
    if rs != [] {
      var m1 := Visit(m, rs[0].session, rs[0].net).users;
      ServeAddsOnlyAdmitted(m1, rs[1..]);
      assert AdmittedEmails(rs[1..]) <= AdmittedEmails(rs) by {
        forall x | x in AdmittedEmails(rs[1..]) ensures x in AdmittedEmails(rs) {
          var i :| 0 <= i < |rs[1..]| && Guard(rs[1..][i].session).Some? && Guard(rs[1..][i].session).value.email == x;
          assert rs[1..][i] == rs[i + 1];
        }
      }
    }
  }

  /** Requests for an email that already has a row never change the table. */
  lemma {:induction false} ServeKnownEmail(m: map<string, User>, rs: seq<Request>, e: string)
    requires e in m
    requires forall i :: 0 <= i < |rs| ==> Admits(rs[i], e)
    ensures Serve(m, rs) == m
    decreases |rs|
  {
    if rs != [] {
      assert Admits(rs[0], e);
      ServeKnownEmail(m, rs[1..], e);
    }
  }

  /**
   * Idempotence: after a first request for an email renders the dashboard,
   * any further requests for that email, from any provider id, leave the
   * table as the first one left it.
   */
  lemma RepeatedVisits(m: map<string, User>, rs: seq<Request>, e: string)
    requires |rs| > 0
    requires forall i :: 0 <= i < |rs| ==> Admits(rs[i], e)
    requires Visit(m, rs[0].session, rs[0].net).page.Rendered?
    ensures Serve(m, rs) == Visit(m, rs[0].session, rs[0].net).users
  {
    assert Admits(rs[0], e);
    ServeKnownEmail(Visit(m, rs[0].session, rs[0].net).users, rs[1..], e);
  }

  /** Any number of requests for one email add at most one row. */
  lemma OneEmailAtMostOneRow(m: map<string, User>, rs: seq<Request>, e: string)
    requires forall i :: 0 <= i < |rs| ==> Admits(rs[i], e)
    ensures Serve(m, rs).Keys <= m.Keys + {e}
    ensures |Serve(m, rs)| <= |m| + 1
  {
    ServeAddsOnlyAdmitted(m, rs);
    assert AdmittedEmails(rs) <= {e};
    var keys := Serve(m, rs).Keys;
    assert keys <= m.Keys + {e};
    assert |keys| <= |m.Keys + {e}| by {
      SubsetCard(keys, m.Keys + {e});
    }
  }

  lemma {:induction false} SubsetCard<T>(a: set<T>, b: set<T>)
    requires a <= b
    ensures |a| <= |b|
    decreases b
  {
    if a != {} {
      var x :| x in a;
      SubsetCard(a - {x}, b - {x});
    }
  }
}
