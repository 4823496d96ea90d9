/** Handing out downloaded tickets to the attendees of a showing.
    Source: internal/graph/ticket.helpers.go and internal/graph/ticket.resolvers.go. */
module Tickets {
  import opened Wrappers
  import opened Numbers

  type User = nat
  type Showing = nat
  type TicketId = string

  /** A downloaded ticket: its barcode, unless that could not be fetched; whether its time and its date can be
      parsed; and whether its row meets every constraint of the table other than the key */
  datatype Download = Download(id: TicketId, barcode: Option<string>, timeParses: bool, dateParses: bool,
    storable: bool)

  /** A row of the ticket table, whose primary key is the ticket's id */
  datatype Assigned = Assigned(showing: Showing, user: User)

  type TicketTable = map<TicketId, Assigned>

  /** The rows a transaction sees; after a statement has failed it takes no more statements, and cannot be
      committed. */
  datatype Transaction = Open(rows: TicketTable) | Aborted

  // ---------- Who has a ticket ----------

  predicate HasTicket(table: TicketTable, showing: Showing, user: User) {
    Assigned(showing, user) in table.Values
  }

  /** A row of the attendees joined with their tickets */
  datatype AttendeeRow = AttendeeRow(user: User, ticket: Option<TicketId>)

  /** The left outer join, in any order: a row for each ticket of an attendee, or one without ticket */
  ghost predicate IsJoin(rows: seq<AttendeeRow>, attendees: set<User>, table: TicketTable, showing: Showing) {
    && (forall i :: 0 <= i < |rows| ==> rows[i].user in attendees)
    && (forall i :: 0 <= i < |rows| ==> rows[i].ticket.Some? == HasTicket(table, showing, rows[i].user))
    && (forall u :: u in attendees ==> exists i :: 0 <= i < |rows| && rows[i].user == u)
  }

  method FetchTicketAssignments(rows: seq<AttendeeRow>, ghost attendees: set<User>, ghost table: TicketTable,
    ghost showing: Showing) returns (status: map<User, bool>)
    requires IsJoin(rows, attendees, table, showing)
    ensures status.Keys == attendees
    ensures forall u :: u in attendees ==> status[u] == HasTicket(table, showing, u)
  {
    hide HasTicket;
    status := map[];
    for i := 0 to |rows|
      invariant forall u :: u in status <==> exists k :: 0 <= k < i && rows[k].user == u
      invariant forall u :: u in status ==> u in attendees && status[u] == HasTicket(table, showing, u)
    {
      status := status[rows[i].user := rows[i].ticket.Some?];
    }
  }

  function Ticketless(status: map<User, bool>): (s: set<User>)
    ensures forall u :: u in s <==> u in status && !status[u]
  {
    set u | u in status && !status[u]
  }

  /** Any attendee without a ticket: the order in which a map is ranged over is not determined. */
  method NextTicketless(status: map<User, bool>) returns (u: Option<User>)
    ensures u.None? <==> Ticketless(status) == {}
    ensures u.Some? ==> u.value in Ticketless(status)
  {
    var candidates := Ticketless(status);
    if candidates == {} {
      return None;
    }
    var user :| user in candidates;
    return Some(user);
  }

  /** The attendees who have no ticket for the showing */
  ghost function Without(table: TicketTable, showing: Showing, attendees: set<User>): (s: set<User>)
    ensures forall u :: u in s <==> u in attendees && !HasTicket(table, showing, u)
  {
    set u | u in attendees && !HasTicket(table, showing, u)
  }

  // ---------- Fair choices ----------

  ghost function Users(owners: seq<User>): (s: set<User>)
    ensures forall u :: u in s <==> u in owners
  {
    set u | u in owners
  }

  /** Owners chosen one after another: someone without a ticket as long as there is one, then the admin */
  ghost predicate Fair(ticketless: set<User>, owners: seq<User>, admin: User) {
    forall i :: 0 <= i < |owners| ==> FairChoice(ticketless - Users(owners[..i]), owners[i], admin)
  }

  ghost predicate FairChoice(left: set<User>, owner: User, admin: User) {
    if left != {} then owner in left else owner == admin
  }

  lemma FairNext(ticketless: set<User>, owners: seq<User>, admin: User, next: User)
    requires Fair(ticketless, owners, admin) && FairChoice(ticketless - Users(owners), next, admin)
    ensures Fair(ticketless, owners + [next], admin)
  {
    var more := owners + [next];
    forall i | 0 <= i < |more|
      ensures FairChoice(ticketless - Users(more[..i]), more[i], admin)
    {
      assert more[..i] == owners[..i];
      assert owners[..|owners|] == owners;
    }
  }

  /** As long as tickets and people without one last, each ticket goes to another of them. */
  lemma {:induction false} FairServes(ticketless: set<User>, owners: seq<User>, admin: User, n: nat)
    requires Fair(ticketless, owners, admin) && n <= |owners| && n <= |ticketless|
    ensures Users(owners[..n]) <= ticketless && |Users(owners[..n])| == n
  {
    if n == 0 {
      assert Users(owners[..0]) == {};
    } else {
      FairServes(ticketless, owners, admin, n - 1);
      var before, next := Users(owners[..n - 1]), owners[n - 1];
      assert FairChoice(ticketless - before, next, admin);
      hide Users, FairChoice, Fair;
      ChoiceServes(ticketless, before, next, admin);
      UsersNext(owners, n);
    }
  }

  lemma UsersNext(owners: seq<User>, n: nat)
    requires 0 < n <= |owners|
    ensures Users(owners[..n]) == Users(owners[..n - 1]) + {owners[n - 1]}
  {
    assert owners[..n] == owners[..n - 1] + [owners[n - 1]];
  }

  lemma ChoiceServes(ticketless: set<User>, before: set<User>, next: User, admin: User)
    requires before <= ticketless && |before| < |ticketless| && FairChoice(ticketless - before, next, admin)
    ensures before + {next} <= ticketless && |before + {next}| == |before| + 1
  {
    NotAll(ticketless, before);
  }

  lemma NotAll(a: set<User>, b: set<User>)
    requires b <= a && |b| < |a|
    ensures a - b != {}
  {
    assert a == b + (a - b);
  }

  /** With m people without a ticket and N tickets, exactly min(m, N) of them gain one, each at first exactly one,
      and the other max(0, N - m) tickets all go to the admin. */
  lemma FairCounts(ticketless: set<User>, owners: seq<User>, admin: User)
    requires Fair(ticketless, owners, admin)
    ensures var served := Min(|ticketless|, |owners|);
            && |Users(owners[..served])| == served && Users(owners[..served]) <= ticketless
            && |ticketless * Users(owners)| == served
            && (forall i :: served <= i < |owners| ==> owners[i] == admin)
            && (|owners| >= |ticketless| ==> ticketless <= Users(owners))
  {
    var m, n := |ticketless|, |owners|;
    var served := Min(m, n);
    FairServes(ticketless, owners, admin, served);
    var first := Users(owners[..served]);
    if n <= m {
      assert owners[..served] == owners;
      if n == m {
        EqualByCount(first, ticketless);
      }
      assert ticketless * Users(owners) == first;
    } else {
      EqualByCount(first, ticketless);
      forall i | served <= i < n
        ensures owners[i] == admin
      {
        assert forall u :: u in owners[..served] ==> u in owners[..i] by {
          assert owners[..served] == owners[..i][..served];
        }
        assert ticketless - Users(owners[..i]) == {};
        assert FairChoice(ticketless - Users(owners[..i]), owners[i], admin);
      }
      assert forall u :: u in owners[..served] ==> u in owners;
      assert ticketless * Users(owners) == ticketless;
    }
  }

  lemma {:induction false} EqualByCount(a: set<User>, b: set<User>)
    requires a <= b && |a| == |b|
    ensures a == b
  {
    assert |b - a| == 0 by {
      assert b == a + (b - a);
    }
  }

  // ---------- What is stored ----------

  /** The id is in the table, or that of one of the first n tickets. */
  ghost predicate Taken(table: TicketTable, ds: seq<Download>, n: nat, id: TicketId)
    requires n <= |ds|
  {
    id in table || exists i :: 0 <= i < n && ds[i].id == id
  }

  /** The table accepts the first n tickets: their ids are new, and their rows meet its other constraints. */
  ghost predicate Accepted(table: TicketTable, ds: seq<Download>, n: nat)
    requires n <= |ds|
  {
    forall i :: 0 <= i < n ==> ds[i].storable && !Taken(table, ds, i, ds[i].id)
  }

  /** The table with rows for the first n tickets */
  ghost function Stored(table: TicketTable, showing: Showing, ds: seq<Download>, owners: seq<User>, n: nat): TicketTable
    requires n <= |ds| && n <= |owners|
  {
    if n == 0 then table
    else Stored(table, showing, ds, owners, n - 1)[ds[n - 1].id := Assigned(showing, owners[n - 1])]
  }

  /** A transaction after one insert */
  ghost function Inserted(tx: Transaction, ticket: Download, row: Assigned): Transaction {
    if tx.Open? && ticket.storable && ticket.id !in tx.rows then Open(tx.rows[ticket.id := row]) else Aborted
  }

  /** A transaction after inserts for the first n tickets, one by one */
  ghost function Inserts(table: TicketTable, showing: Showing, ds: seq<Download>, owners: seq<User>,
    n: nat): Transaction
    requires n <= |ds| && n <= |owners|
  {
    if n == 0 then Open(table)
    else Inserted(Inserts(table, showing, ds, owners, n - 1), ds[n - 1], Assigned(showing, owners[n - 1]))
  }

  /** Rows that were there are unchanged, and there are rows for the first n tickets and no others. */
  ghost predicate Keeps(table: TicketTable, r: TicketTable, ds: seq<Download>, n: nat)
    requires n <= |ds|
  {
    && (forall id :: id in table ==> id in r && r[id] == table[id])
    && (forall id :: id in r <==> Taken(table, ds, n, id))
    && |r| == |table| + n
  }

  /** Each of the first n tickets belongs to the one user chosen for it. */
  ghost predicate StoredFor(r: TicketTable, showing: Showing, ds: seq<Download>, owners: seq<User>, n: nat)
    requires n <= |ds| && n <= |owners|
  {
    forall i :: 0 <= i < n ==> ds[i].id in r && r[ds[i].id] == Assigned(showing, owners[i])
  }

  lemma {:induction false} AcceptedKeeps(table: TicketTable, showing: Showing, ds: seq<Download>, owners: seq<User>,
    n: nat)
    requires n <= |ds| && n <= |owners| && Accepted(table, ds, n)
    ensures Keeps(table, Stored(table, showing, ds, owners, n), ds, n)
  {
    hide Taken, Accepted, Keeps;
    if n > 0 {
      AcceptedNext(table, ds, n);
      AcceptedKeeps(table, showing, ds, owners, n - 1);
      KeepsNext(table, Stored(table, showing, ds, owners, n - 1), ds, n, Assigned(showing, owners[n - 1]));
    } else {
      KeepsNone(table, ds);
    }
  }

  lemma KeepsNone(table: TicketTable, ds: seq<Download>)
    ensures Keeps(table, table, ds, 0)
  {
  }

  lemma KeepsNext(table: TicketTable, before: TicketTable, ds: seq<Download>, n: nat, row: Assigned)
    requires 0 < n <= |ds| && Keeps(table, before, ds, n - 1) && !Taken(table, ds, n - 1, ds[n - 1].id)
    ensures Keeps(table, before[ds[n - 1].id := row], ds, n)
  {
    forall id
      ensures Taken(table, ds, n, id) <==> Taken(table, ds, n - 1, id) || id == ds[n - 1].id
    {
      TakenNext(table, ds, n, id);
    }
    NotYet(table, ds, n - 1);
    hide Taken;
    RowAdded(before, ds[n - 1].id, row);
  }

  lemma NotYet(table: TicketTable, ds: seq<Download>, n: nat)
    requires n <= |ds|
    ensures forall id :: id in table ==> Taken(table, ds, n, id)
  {
  }

  lemma RowAdded(table: TicketTable, id: TicketId, row: Assigned)
    ensures id !in table ==> |table[id := row]| == |table| + 1
  {
  }

  lemma TakenNext(table: TicketTable, ds: seq<Download>, n: nat, id: TicketId)
    requires 0 < n <= |ds|
    ensures Taken(table, ds, n, id) <==> Taken(table, ds, n - 1, id) || id == ds[n - 1].id
  {
    if Taken(table, ds, n, id) && id !in table {
      var i :| 0 <= i < n && ds[i].id == id;
      assert i < n - 1 || id == ds[n - 1].id;
    }
  }

  lemma {:induction false} AcceptedStored(table: TicketTable, showing: Showing, ds: seq<Download>, owners: seq<User>,
    n: nat)
    requires n <= |ds| && n <= |owners| && Accepted(table, ds, n)
    ensures StoredFor(Stored(table, showing, ds, owners, n), showing, ds, owners, n)
  {
    hide StoredFor, Taken, Accepted;
    if n > 0 {
      AcceptedNext(table, ds, n);
      AcceptedStored(table, showing, ds, owners, n - 1);
      AcceptedKeeps(table, showing, ds, owners, n - 1);
      StoredNext(Stored(table, showing, ds, owners, n - 1), showing, ds, owners, n);
    } else {
      NothingStored(table, showing, ds, owners);
    }
  }

  lemma NothingStored(r: TicketTable, showing: Showing, ds: seq<Download>, owners: seq<User>)
    ensures Stored(r, showing, ds, owners, 0) == r && StoredFor(r, showing, ds, owners, 0)
  {
  }

  lemma StoredNext(r: TicketTable, showing: Showing, ds: seq<Download>, owners: seq<User>, n: nat)
    requires 0 < n <= |ds| && n <= |owners| && ds[n - 1].id !in r && StoredFor(r, showing, ds, owners, n - 1)
    ensures StoredFor(r[ds[n - 1].id := Assigned(showing, owners[n - 1])], showing, ds, owners, n)
  {
  }

  /** The inserts one by one arrive at the rows of all tickets, or at an aborted transaction. */
  lemma {:induction false} InsertsAllOrNothing(table: TicketTable, showing: Showing, ds: seq<Download>,
    owners: seq<User>, n: nat)
    requires n <= |ds| && n <= |owners|
    ensures Inserts(table, showing, ds, owners, n)
         == if Accepted(table, ds, n) then Open(Stored(table, showing, ds, owners, n)) else Aborted
  {
    hide Taken;
    if n > 0 {
      InsertsAllOrNothing(table, showing, ds, owners, n - 1);
      AcceptedNext(table, ds, n);
      hide Accepted;
      if Accepted(table, ds, n - 1) {
        AcceptedKeeps(table, showing, ds, owners, n - 1);
      }
    }
  }

  lemma AcceptedNext(table: TicketTable, ds: seq<Download>, n: nat)
    requires 0 < n <= |ds|
    ensures Accepted(table, ds, n) <==>
      Accepted(table, ds, n - 1) && ds[n - 1].storable && !Taken(table, ds, n - 1, ds[n - 1].id)
  {
    hide Taken;
  }

  /** A single ticket that the table refuses dooms all the inserts, whatever comes before or after it, and nothing
      else does. */
  lemma OneRefusalDoomsAll(table: TicketTable, showing: Showing, ds: seq<Download>, owners: seq<User>, n: nat)
    requires n <= |ds| && n <= |owners|
    ensures Inserts(table, showing, ds, owners, n) == Aborted <==>
      exists i :: 0 <= i < n && (!ds[i].storable || Taken(table, ds, i, ds[i].id))
  {
    hide Taken;
    InsertsAllOrNothing(table, showing, ds, owners, n);
  }

  /** After n accepted tickets their owners have tickets, besides those who had one. */
  lemma OwnersHaveTickets(table: TicketTable, showing: Showing, ds: seq<Download>, owners: seq<User>, n: nat, u: User)
    requires n <= |ds| && n <= |owners| && Accepted(table, ds, n)
    ensures HasTicket(Stored(table, showing, ds, owners, n), showing, u) <==>
      HasTicket(table, showing, u) || u in owners[..n]
  {
    AcceptedKeeps(table, showing, ds, owners, n);
    AcceptedStored(table, showing, ds, owners, n);
    hide Stored, Accepted;
    OwnersOf(table, Stored(table, showing, ds, owners, n), showing, ds, owners, n, u);
  }

  lemma OwnersOf(table: TicketTable, r: TicketTable, showing: Showing, ds: seq<Download>, owners: seq<User>, n: nat,
    u: User)
    requires n <= |ds| && n <= |owners| && Keeps(table, r, ds, n) && StoredFor(r, showing, ds, owners, n)
    ensures HasTicket(r, showing, u) <==> HasTicket(table, showing, u) || u in owners[..n]
  {
    if HasTicket(r, showing, u) {
      var id :| id in r && r[id] == Assigned(showing, u);
      if id !in table {
        assert Taken(table, ds, n, id);
        var i :| 0 <= i < n && ds[i].id == id;
        assert owners[..n][i] == u;
      }
    }
    if HasTicket(table, showing, u) {
      var id :| id in table && table[id] == Assigned(showing, u);
      assert r[id] == Assigned(showing, u);
    }
    if u in owners[..n] {
      var i :| 0 <= i < n && owners[..n][i] == u;
      assert r[ds[i].id] == Assigned(showing, u);
    }
  }

  /** Those without a ticket after n accepted tickets are those whom the fair choices have not served yet. */
  lemma StillWithout(table: TicketTable, showing: Showing, attendees: set<User>, ds: seq<Download>, owners: seq<User>,
    n: nat)
    requires n <= |ds| && n <= |owners| && Accepted(table, ds, n)
    ensures Without(Stored(table, showing, ds, owners, n), showing, attendees)
         == Without(table, showing, attendees) - Users(owners[..n])
  {
    hide Stored, Accepted, HasTicket;
    forall u
      ensures HasTicket(Stored(table, showing, ds, owners, n), showing, u) <==>
        HasTicket(table, showing, u) || u in owners[..n]
    {
      OwnersHaveTickets(table, showing, ds, owners, n, u);
    }
  }

  /** While some attendee has no ticket, the next one goes to an attendee who has none either. */
  ghost predicate NobodyGetsTwo(table: TicketTable, showing: Showing, attendees: set<User>, ds: seq<Download>,
    owners: seq<User>)
    requires |owners| == |ds|
  {
    forall i :: 0 <= i < |ds| ==>
      var left := Without(Stored(table, showing, ds, owners, i), showing, attendees);
      left != {} ==> owners[i] in left
  }

  lemma FairGivesNobodyTwo(table: TicketTable, showing: Showing, attendees: set<User>, ds: seq<Download>,
    owners: seq<User>, admin: User)
    requires |owners| == |ds| && Accepted(table, ds, |ds|) && Fair(Without(table, showing, attendees), owners, admin)
    ensures NobodyGetsTwo(table, showing, attendees, ds, owners)
  {
    hide Stored, Taken, HasTicket;
    forall i | 0 <= i < |ds|
      ensures Without(Stored(table, showing, ds, owners, i), showing, attendees) != {}
              ==> owners[i] in Without(Stored(table, showing, ds, owners, i), showing, attendees)
    {
      StillWithout(table, showing, attendees, ds, owners, i);
      assert FairChoice(Without(table, showing, attendees) - Users(owners[..i]), owners[i], admin);
    }
  }

  /** Of m attendees without a ticket, exactly min(m, N) have one once N tickets are stored. */
  lemma TicketsGained(table: TicketTable, showing: Showing, attendees: set<User>, ds: seq<Download>,
    owners: seq<User>, admin: User)
    requires |owners| == |ds| && Accepted(table, ds, |ds|) && Fair(Without(table, showing, attendees), owners, admin)
    ensures var before, r := Without(table, showing, attendees), Stored(table, showing, ds, owners, |ds|);
            |before - Without(r, showing, attendees)| == Min(|before|, |ds|)
  {
    hide Stored, Accepted, HasTicket, Fair;
    var before := Without(table, showing, attendees);
    StillWithout(table, showing, attendees, ds, owners, |ds|);
    assert owners[..|ds|] == owners;
    FairCounts(before, owners, admin);
    assert before - (before - Users(owners)) == before * Users(owners);
  }

  // ---------- Handing them out ----------

  /** How processing ends: with everything stored, with an internal error, by a nil barcode being dereferenced, with
      a commit that fails, or with everything stored but no showing to reply with */
  datatype Outcome = Done | InternalError | Panic | CommitFailed | ReplyFailed

  /** The tickets of the URLs whose download succeeded */
  function Downloads(urls: seq<Option<seq<Download>>>): seq<Download> {
    if urls == [] then [] else (if urls[0].Some? then urls[0].value else []) + Downloads(urls[1..])
  }

  /** What the first ticket that cannot be handed out does, if there is one */
  function OutcomeOf(ds: seq<Download>): (r: Outcome)
    ensures r.Done? || r.InternalError? || r.Panic?
  {
    if ds == [] then Done
    else if !ds[0].timeParses || !ds[0].dateParses then InternalError
    else if ds[0].barcode.None? then Panic
    else OutcomeOf(ds[1..])
  }

  predicate Parses(ticket: Download) {
    ticket.timeParses && ticket.dateParses
  }

  /** All tickets can be handed out exactly if each of them can. */
  lemma {:induction false} DoneMeansAllUsable(ds: seq<Download>)
    ensures OutcomeOf(ds).Done? <==> forall i :: 0 <= i < |ds| ==> Parses(ds[i]) && ds[i].barcode.Some?
  {
    if ds != [] {
      DoneMeansAllUsable(ds[1..]);
      assert ds == [ds[0]] + ds[1..];
    }
  }

  /** A single missing barcode dooms all tickets; by a panic, unless an unreadable time or date comes before it. */
  lemma {:induction false} MissingBarcodeDoomsAll(ds: seq<Download>, i: nat)
    requires i < |ds| && ds[i].barcode.None?
    ensures !OutcomeOf(ds).Done?
    ensures OutcomeOf(ds).Panic? <== forall j :: 0 <= j <= i ==> Parses(ds[j])
  {
    if i > 0 {
      MissingBarcodeDoomsAll(ds[1..], i - 1);
      assert ds == [ds[0]] + ds[1..];
    }
  }

  /** What is to be handed out: the table before, and the attendees of the showing without a ticket */
  datatype Work = Work(table: TicketTable, showing: Showing, admin: User, ticketless: set<User>, ds: seq<Download>)

  /** Transaction and marks after the first tickets have gone to these owners */
  ghost predicate Assigning(w: Work, tx: Transaction, status: map<User, bool>, owners: seq<User>) {
    && |owners| <= |w.ds|
    && Ticketless(status) == w.ticketless - Users(owners)
    && Fair(w.ticketless, owners, w.admin)
    && tx == Inserts(w.table, w.showing, w.ds, owners, |owners|)
  }

  /** Inserts a ticket. A refused insert aborts the transaction; the caller only logs that. */
  method AddTicket(tx: Transaction, ticket: Download, row: Assigned) returns (r: Transaction, ok: bool)
    ensures r == Inserted(tx, ticket, row) && (ok <==> r.Open?)
  {
    ok := tx.Open? && ticket.storable && ticket.id !in tx.rows;
    r := if ok then Open(tx.rows[ticket.id := row]) else Aborted;
  }

  /** Stores one ticket, for someone who has none yet, or else for the admin. */
  method AssignTicket(before: Transaction, showing: Showing, admin: User, assignments: map<User, bool>,
    ticket: Download)
    returns (tx: Transaction, status: map<User, bool>, outcome: Outcome, ghost owner: User)
    ensures outcome == OutcomeOf([ticket])
    ensures !outcome.Done? ==> tx == before && status == assignments
    ensures outcome.Done? ==>
      && FairChoice(Ticketless(assignments), owner, admin)
      && Ticketless(status) == Ticketless(assignments) - {owner}
      && tx == Inserted(before, ticket, Assigned(showing, owner))
  {
    tx := before;
    status := assignments;
    var ticketless := NextTicketless(assignments);
    var assignToUser := if ticketless.None? then admin else ticketless.value;
    owner := assignToUser;
    if !ticket.timeParses {
      return tx, status, InternalError, owner;
    }
    if !ticket.dateParses {
      return tx, status, InternalError, owner;
    }
    if ticket.barcode.None? {
      return tx, status, Panic, owner;
    }
    var ok;
    tx, ok := AddTicket(before, ticket, Assigned(showing, assignToUser));
    status := status[assignToUser := true];
    outcome := Done;
  }

  lemma {:induction false} InsertsLocal(table: TicketTable, showing: Showing, ds: seq<Download>, owners: seq<User>,
    more: seq<User>, n: nat)
    requires n <= |ds| && n <= |owners| && n <= |more| && forall i :: 0 <= i < n ==> owners[i] == more[i]
    ensures Inserts(table, showing, ds, owners, n) == Inserts(table, showing, ds, more, n)
  {
    hide Inserted;
    if n > 0 {
      InsertsLocal(table, showing, ds, owners, more, n - 1);
    }
  }

  lemma AssigningNext(w: Work, tx: Transaction, status: map<User, bool>, owners: seq<User>, owner: User,
    next: Transaction, marks: map<User, bool>)
    requires Assigning(w, tx, status, owners) && |owners| < |w.ds|
    requires FairChoice(Ticketless(status), owner, w.admin) && Ticketless(marks) == Ticketless(status) - {owner}
    requires next == Inserted(tx, w.ds[|owners|], Assigned(w.showing, owner))
    ensures Assigning(w, next, marks, owners + [owner])
  {
    hide Inserted, Fair, FairChoice;
    FairNext(w.ticketless, owners, w.admin, owner);
    InsertsLocal(w.table, w.showing, w.ds, owners, owners + [owner], |owners|);
  }

  lemma AssigningMeans(w: Work, tx: Transaction, status: map<User, bool>, owners: seq<User>)
    requires Assigning(w, tx, status, owners)
    ensures |owners| <= |w.ds| && Fair(w.ticketless, owners, w.admin)
    ensures tx == Inserts(w.table, w.showing, w.ds, owners, |owners|)
  {
  }

  /** Stores the tickets of one URL in turn. */
  method AssignDownload(ghost w: Work, showing: Showing, admin: User, tickets: seq<Download>, ghost rest: seq<Download>,
    before: Transaction, assignments: map<User, bool>, ghost owned: seq<User>)
    returns (tx: Transaction, status: map<User, bool>, outcome: Outcome, ghost owners: seq<User>)
    requires w.showing == showing && w.admin == admin
    requires Assigning(w, before, assignments, owned) && w.ds[|owned|..] == tickets + rest
    ensures Assigning(w, tx, status, owners)
    ensures outcome.Done? ==> |owners| == |owned| + |tickets| && OutcomeOf(tickets + rest) == OutcomeOf(rest)
    ensures !outcome.Done? ==> outcome == OutcomeOf(tickets + rest)
  {
    hide Assigning, FairChoice, OutcomeOf, Inserted;
    tx, status, owners := before, assignments, owned;
    AssigningMeans(w, before, assignments, owned);
    assert tickets[0..] + rest == tickets + rest;
    for j := 0 to |tickets|
      invariant Assigning(w, tx, status, owners)
      invariant |owners| == |owned| + j && OutcomeOf(tickets[j..] + rest) == OutcomeOf(tickets + rest)
    {
      OutcomeNext(tickets, rest, j);
      assert w.ds[|owners|] == w.ds[|owned|..][j] == tickets[j];
      ghost var owner;
      ghost var was, marks := tx, status;
      tx, status, outcome, owner := AssignTicket(tx, showing, admin, status, tickets[j]);
      if !outcome.Done? {
        return tx, status, outcome, owners;
      }
      AssigningNext(w, was, marks, owners, owner, tx, status);
      owners := owners + [owner];
    }
    assert tickets[|tickets|..] + rest == rest;
    outcome := Done;
  }

  lemma OutcomeNext(tickets: seq<Download>, rest: seq<Download>, j: nat)
    requires j < |tickets|
    ensures OutcomeOf([tickets[j]]).Done? ==> OutcomeOf(tickets[j..] + rest) == OutcomeOf(tickets[j + 1..] + rest)
    ensures !OutcomeOf([tickets[j]]).Done? ==> OutcomeOf(tickets[j..] + rest) == OutcomeOf([tickets[j]])
  {
    assert (tickets[j..] + rest)[1..] == tickets[j + 1..] + rest;
    assert [tickets[j]][1..] == [];
  }

  /** Hands out the tickets of all URLs. The caller is taken for the admin without a check. */
  method AssignTickets(table: TicketTable, showing: Showing, admin: User, assignments: map<User, bool>,
    urls: seq<Option<seq<Download>>>) returns (tx: Transaction, outcome: Outcome, ghost owners: seq<User>)
    ensures outcome == OutcomeOf(Downloads(urls))
    ensures |owners| <= |Downloads(urls)| && (outcome.Done? ==> |owners| == |Downloads(urls)|)
    ensures Fair(Ticketless(assignments), owners, admin)
    ensures tx == Inserts(table, showing, Downloads(urls), owners, |owners|)
  {
    hide Assigning, OutcomeOf, Downloads, Inserts, Fair;
    ghost var w := Work(table, showing, admin, Ticketless(assignments), Downloads(urls));
    var status: map<User, bool> := assignments;
    tx, owners := Open(table), [];
    NoneYet(w, assignments);
    assert urls[0..] == urls;
    for i := 0 to |urls|
      invariant Assigning(w, tx, status, owners)
      invariant |owners| <= |w.ds| && w.ds[|owners|..] == Downloads(urls[i..])
      invariant OutcomeOf(Downloads(urls[i..])) == OutcomeOf(w.ds)
    {
      NextUrl(urls, i);
      if urls[i].None? {
        continue;
      }
      ghost var rest, n := Downloads(urls[i + 1..]), |owners|;
      tx, status, outcome, owners := AssignDownload(w, showing, admin, urls[i].value, rest, tx, status, owners);
      if !outcome.Done? {
        AssigningMeans(w, tx, status, owners);
        return;
      }
      assert w.ds[|owners|..] == w.ds[n..][|urls[i].value|..];
    }
    NothingLeft(urls);
    AssigningMeans(w, tx, status, owners);
    outcome := Done;
  }

  lemma NothingLeft(urls: seq<Option<seq<Download>>>)
    ensures Downloads(urls[|urls|..]) == [] && OutcomeOf([]) == Done
  {
  }

  lemma NextUrl(urls: seq<Option<seq<Download>>>, i: nat)
    requires i < |urls|
    ensures Downloads(urls[i..]) == (if urls[i].Some? then urls[i].value else []) + Downloads(urls[i + 1..])
  {
    assert urls[i..][1..] == urls[i + 1..];
  }

  lemma NoneYet(w: Work, assignments: map<User, bool>)
    requires w.ticketless == Ticketless(assignments)
    ensures Assigning(w, Open(w.table), assignments, [])
  {
  }

  // ---------- The whole transaction ----------

  /** What can fail besides the tickets: a statement before they are handed out (0), the query for the attendees (1)
      and the commit (2). After that only the query for the showing that is replied with (3) can fail. */
  predicate NoFault(faults: set<nat>) {
    0 !in faults && 1 !in faults && 2 !in faults
  }

  /** All is committed: no fault, every ticket usable, and every row accepted. */
  ghost predicate Commits(table: TicketTable, urls: seq<Option<seq<Download>>>, faults: set<nat>) {
    var ds := Downloads(urls);
    || urls == []
    || (NoFault(faults) && Accepted(table, ds, |ds|)
        && forall i :: 0 <= i < |ds| ==> Parses(ds[i]) && ds[i].barcode.Some?)
  }

  /** The table after the tickets ds have been stored for these owners: old rows as they were, a row for each ticket,
      exactly min(m, N) attendees served, none twice while another is waiting, and the surplus with the admin */
  ghost predicate HandedOut(table: TicketTable, r: TicketTable, showing: Showing, admin: User, attendees: set<User>,
    ds: seq<Download>, owners: seq<User>)
  {
    var before := Without(table, showing, attendees);
    && |owners| == |ds|
    && Keeps(table, r, ds, |ds|) && StoredFor(r, showing, ds, owners, |ds|)
    && |before - Without(r, showing, attendees)| == Min(|before|, |ds|)
    && NobodyGetsTwo(table, showing, attendees, ds, owners)
    && forall i :: Min(|before|, |ds|) <= i < |ds| ==> owners[i] == admin
  }

  lemma CommittedIsHandedOut(table: TicketTable, showing: Showing, admin: User, attendees: set<User>,
    ds: seq<Download>, owners: seq<User>)
    requires |owners| == |ds| && Accepted(table, ds, |ds|) && Fair(Without(table, showing, attendees), owners, admin)
    ensures HandedOut(table, Stored(table, showing, ds, owners, |ds|), showing, admin, attendees, ds, owners)
  {
    hide Accepted, Stored, Fair, Keeps, StoredFor, NobodyGetsTwo;
    AcceptedKeeps(table, showing, ds, owners, |ds|);
    AcceptedStored(table, showing, ds, owners, |ds|);
    FairGivesNobodyTwo(table, showing, attendees, ds, owners, admin);
    TicketsGained(table, showing, attendees, ds, owners, admin);
    FairCounts(Without(table, showing, attendees), owners, admin);
  }

  lemma NothingToDo(table: TicketTable, showing: Showing, admin: User, attendees: set<User>)
    ensures HandedOut(table, table, showing, admin, attendees, Downloads([]), [])
  {
    CommittedIsHandedOut(table, showing, admin, attendees, [], []);
  }

  /** All or nothing: the tickets are handed out completely, or the table stays as it is. An error of the reply does
      not undo that. */
  method ProcessTickets(table: TicketTable, showing: Showing, admin: User, rows: seq<AttendeeRow>,
    ghost attendees: set<User>, urls: seq<Option<seq<Download>>>, faults: set<nat>)
      returns (r: TicketTable, outcome: Outcome, ghost owners: seq<User>)
    requires IsJoin(rows, attendees, table, showing)
    ensures outcome.Done? <==> Commits(table, urls, faults) && 3 !in faults
    ensures outcome.ReplyFailed? <==> Commits(table, urls, faults) && 3 in faults
    ensures !Commits(table, urls, faults) ==> r == table
    ensures Commits(table, urls, faults) ==> HandedOut(table, r, showing, admin, attendees, Downloads(urls), owners)
  {
    hide HasTicket, IsJoin, Fair, HandedOut, Accepted, Stored, Downloads, Inserts, OutcomeOf, Parses;
    r, owners := table, [];
    if urls == [] {
      NothingToDo(table, showing, admin, attendees);
      return r, if 3 in faults then ReplyFailed else Done, owners;
    }
    if 0 in faults || 1 in faults {
      return r, InternalError, owners;
    }
    var assignments := FetchTicketAssignments(rows, attendees, table, showing);
    assert Ticketless(assignments) == Without(table, showing, attendees);
    var tx;
    tx, outcome, owners := AssignTickets(table, showing, admin, assignments, urls);
    DoneMeansAllUsable(Downloads(urls));
    if !outcome.Done? {
      return;
    }
    InsertsAllOrNothing(table, showing, Downloads(urls), owners, |owners|);
    if tx.Aborted? || 2 in faults {
      return r, CommitFailed, owners;
    }
    CommittedIsHandedOut(table, showing, admin, attendees, Downloads(urls), owners);
    r := tx.rows;
    if 3 in faults {
      outcome := ReplyFailed;
    }
  }

  // ---------- Seats by row ----------

  datatype Seating = Seating(row: int, number: int)

  /** The seats on a row, in the order of the tickets */
  function SeatsOn(tickets: seq<Seating>, row: int): seq<int> {
    if tickets == [] then []
    else
      var last := tickets[|tickets| - 1];
      SeatsOn(tickets[..|tickets| - 1], row) + (if last.row == row then [last.number] else [])
  }

  method GroupRows(tickets: seq<Seating>) returns (rows: map<int, seq<int>>)
    ensures forall row :: row in rows <==> exists i :: 0 <= i < |tickets| && tickets[i].row == row
    ensures forall row :: row in rows ==> rows[row] == SeatsOn(tickets, row)
  {
    hide SeatsOn, RowSeen;
    NoSeats(tickets);
    NoRows(tickets);
    rows := map[];
    for i := 0 to |tickets|
      invariant forall row :: row in rows <==> RowSeen(tickets, i, row)
      invariant forall row :: SeatsOn(tickets[..i], row) == if row in rows then rows[row] else []
    {
      var row := tickets[i].row;
      SeatsNext(tickets, i);
      RowsNext(tickets, i);
      rows := rows[row := (if row in rows then rows[row] else []) + [tickets[i].number]];
    }
    assert tickets[..|tickets|] == tickets;
    NoRows(tickets);
  }

  /** One of the first n tickets is for a seat on this row. */
  ghost predicate RowSeen(tickets: seq<Seating>, n: nat, row: int)
    requires n <= |tickets|
  {
    exists k :: 0 <= k < n && tickets[k].row == row
  }

  lemma RowsNext(tickets: seq<Seating>, i: nat)
    requires i < |tickets|
    ensures forall row :: RowSeen(tickets, i + 1, row) <==> RowSeen(tickets, i, row) || row == tickets[i].row
  {
  }

  lemma NoRows(tickets: seq<Seating>)
    ensures forall row :: !RowSeen(tickets, 0, row)
    ensures forall row ::
      RowSeen(tickets, |tickets|, row) <==> exists i :: 0 <= i < |tickets| && tickets[i].row == row
  {
  }

  lemma SeatsNext(tickets: seq<Seating>, i: nat)
    requires i < |tickets|
    ensures forall row ::
      SeatsOn(tickets[..i + 1], row) == SeatsOn(tickets[..i], row)
        + (if tickets[i].row == row then [tickets[i].number] else [])
  {
    assert tickets[..i + 1][..i] == tickets[..i];
  }

  lemma NoSeats(tickets: seq<Seating>)
    ensures forall row :: SeatsOn(tickets[..0], row) == []
  {
  }

  /** The seats on a row are those of all its tickets, in the order of the tickets. */
  lemma {:induction false} SeatsInOrder(tickets: seq<Seating>, row: int) returns (at: seq<nat>)
    ensures |at| == |SeatsOn(tickets, row)|
    ensures forall a, b :: 0 <= a < b < |at| ==> at[a] < at[b]
    ensures forall a :: 0 <= a < |at| ==>
      at[a] < |tickets| && tickets[at[a]] == Seating(row, SeatsOn(tickets, row)[a])
    ensures forall i :: 0 <= i < |tickets| && tickets[i].row == row ==> i in at
  {
    if tickets == [] {
      at := [];
    } else {
      var k := |tickets| - 1;
      at := SeatsInOrder(tickets[..k], row);
      SeatsOnLast(tickets, row);
      hide SeatsOn;
      if tickets[k].row == row {
        ghost var before := at;
        at := before + [k];
        assert forall i :: i in before ==> i in at;
        assert at[|before|] == k;
      }
    }
  }

  /** Grouping loses no ticket: the rows together hold every seat. */
  lemma {:induction false} SeatsOnAll(tickets: seq<Seating>, row: int, number: int)
    ensures multiset(SeatsOn(tickets, row))[number] == multiset(tickets)[Seating(row, number)]
  {
    if tickets != [] {
      var k := |tickets| - 1;
      var before, last := tickets[..k], tickets[k];
      SeatsOnAll(before, row, number);
      SeatsOnLast(tickets, row);
      hide SeatsOn;
      LastCounted(SeatsOn(before, row), last.number, number);
      LastCounted(before, last, Seating(row, number));
      assert before + [last] == tickets;
      assert last == Seating(row, number) <==> last.row == row && last.number == number;
    }
  }

  lemma SeatsOnLast(tickets: seq<Seating>, row: int)
    requires tickets != []
    ensures var k := |tickets| - 1;
            SeatsOn(tickets, row)
            == SeatsOn(tickets[..k], row) + (if tickets[k].row == row then [tickets[k].number] else [])
  {
  }

  lemma LastCounted<T>(s: seq<T>, last: T, x: T)
    ensures multiset(s + [last])[x] == multiset(s)[x] + (if last == x then 1 else 0)
    ensures multiset(s + [])[x] == multiset(s)[x]
  {
    assert s + [] == s;
  }
}
