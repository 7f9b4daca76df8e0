/** Clients of a list request: they know a page only by its ids and the text of its next cursor. */
module Clients {
  import opened Model
  import opened Keyset
  import opened Listing

  /** A page as it goes over the wire. */
  datatype Reply = Reply(ids: seq<string>, next: Option<string>)

  /** A list request as the daemon answers it: cursor text and limit to a page, or a refusal. */
  type Server = (Option<string>, nat) -> Option<Reply>

  /** What a client holds: the ids so far, the next cursor's text, and how it ended. */
  datatype Client = Client(ids: seq<string>, from: Option<string>, done: bool, failed: bool)

  function Asked(serve: Server, limit: nat, c: Client): Client {
    var r := serve(c.from, limit);
    if r.None? then c.(done := true, failed := true)
    else Client(c.ids + r.value.ids, r.value.next, r.value.next.None?, false)
  }

  /** After `i` requests, each echoing the last cursor, where `servers(j)` answers request `j`. */
  function ClientTo(servers: nat -> Server, limits: nat -> nat, i: nat): Client {
    if i == 0 then Client([], None, false, false)
    else
      var c := ClientTo(servers, limits, i - 1);
      if c.done then c else Asked(servers(i - 1), limits(i - 1), c)
  }

  /** The two servers give the same answers. */
  ghost predicate SameAnswers(a: Server, b: Server) { forall from, limit :: a(from, limit) == b(from, limit) }

  lemma {:induction false} SameClients(a: nat -> Server, b: nat -> Server, limits: nat -> nat, i: nat)
    requires forall j: nat :: j < i ==> SameAnswers(a(j), b(j))
    ensures ClientTo(a, limits, i) == ClientTo(b, limits, i)
  {
    if i > 0 {
      SameClients(a, b, limits, i - 1);
      assert SameAnswers(a(i - 1), b(i - 1));
    }
  }

  // ---------------------------------------------------------------- clients of a keyset walk

  function TextBy(text: Pos -> string, from: Option<Pos>): Option<string> {
    if from.Some? then Some(text(from.value)) else None
  }

  /** What a client of a keyset walk holds. */
  function Seen(text: Pos -> string, w: Walk): Client { Client(IdsOf(w.items), TextBy(text, w.from), w.done, false) }

  /** The server answers the text of a position with the keyset page after that position. */
  ghost predicate ServesPage(serve: Server, limit: nat, text: Pos -> string, pg: Page, from: Option<Pos>) {
    serve(TextBy(text, from), limit) == Some(Reply(IdsOf(pg.items), TextBy(text, pg.next)))
  }

  lemma IdsAppend(a: seq<Pos>, b: seq<Pos>)
    ensures IdsOf(a + b) == IdsOf(a) + IdsOf(b)
  {
  }

  lemma ClientStep(serve: Server, limit: nat, text: Pos -> string, w: Walk, pg: Page)
    requires ServesPage(serve, limit, text, pg, w.from)
    ensures Asked(serve, limit, Seen(text, w)) == Seen(text, Extended(w, pg))
  {
    IdsAppend(w.items, pg.items);
  }

  /** Page `n` of the walk is served. */
  ghost predicate ServedAt(servers: nat -> Server, limits: nat -> nat, text: Pos -> string, desc: bool,
                           views: nat -> set<Pos>, sizes: nat -> Size, n: nat)
  {
    var w := WalkTo(desc, views, sizes, n);
    w.done || ServesPage(servers(n), limits(n), text, Fetch(desc, views(n), w.from, sizes(n)), w.from)
  }

  /** After `n` pages the client holds what the walk returned. */
  ghost predicate InStep(servers: nat -> Server, limits: nat -> nat, text: Pos -> string, desc: bool,
                         views: nat -> set<Pos>, sizes: nat -> Size, n: nat)
  {
    ClientTo(servers, limits, n) == Seen(text, WalkTo(desc, views, sizes, n))
  }

  lemma ServedOnce(servers: nat -> Server, limits: nat -> nat, text: Pos -> string, desc: bool,
                   views: nat -> set<Pos>, sizes: nat -> Size, n: nat)
    requires InStep(servers, limits, text, desc, views, sizes, n)
    requires ServedAt(servers, limits, text, desc, views, sizes, n)
    ensures InStep(servers, limits, text, desc, views, sizes, n + 1)
  {
    var w := WalkTo(desc, views, sizes, n);
    if !w.done {
      ClientStep(servers(n), limits(n), text, w, Fetch(desc, views(n), w.from, sizes(n)));
    }
  }

  lemma NothingSeen(text: Pos -> string)
    ensures Seen(text, Walk([], None, false)) == Client([], None, false, false)
  {
  }

  lemma {:induction false} PageByPage(holds: nat -> bool, i: nat)
    requires holds(0) && forall n: nat :: n < i && holds(n) ==> holds(n + 1)
    ensures holds(i)
  {
    if i > 0 {
      PageByPage(holds, i - 1);
    }
  }

  /** A client that is served the pages sees the keyset walk. */
  lemma ServedWalk(servers: nat -> Server, limits: nat -> nat, text: Pos -> string, desc: bool,
                   views: nat -> set<Pos>, sizes: nat -> Size, i: nat)
    requires forall n: nat :: n < i ==> ServedAt(servers, limits, text, desc, views, sizes, n)
    ensures InStep(servers, limits, text, desc, views, sizes, i)
  {
    var inStep := (n: nat) => InStep(servers, limits, text, desc, views, sizes, n);
    NothingSeen(text);
    forall n: nat | n < i && inStep(n)
      ensures inStep(n + 1)
    {
      ServedOnce(servers, limits, text, desc, views, sizes, n);
    }
    PageByPage(inStep, i);
  }

  /** What a client holds only grows. */
  lemma {:induction false} ClientGrows(servers: nat -> Server, limits: nat -> nat, i: nat, j: nat)
    requires i <= j
    ensures ClientTo(servers, limits, i).ids <= ClientTo(servers, limits, j).ids
  {
    if i < j {
      ClientGrows(servers, limits, i, j - 1);
    }
  }
}
