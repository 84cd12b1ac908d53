/**
 * internal/kube/list.go, one collection: the paged walk over a server's continue tokens.
 * The server is a deterministic function from a namespace and list options to a reply.
 */
module Listing {
  import opened Sequences

  const CHUNK_SIZE := 2000

  datatype ListOptions = ListOptions(selector: string, limit: int, token: string)

  datatype Reply<+T> = Page(items: seq<T>, next: string, remaining: Option<int>) | Failed(error: string)

  datatype Outcome<+T> = Ok(items: seq<T>) | Err(error: string)

  type Server<!T> = (string, ListOptions) -> Reply<T>

  /** The server stops handing out tokens: each one leads strictly closer to the end. */
  ghost predicate RunsOut<T>(page: Server<T>, rank: (string, ListOptions) -> nat) {
    forall ns, o :: page(ns, o).Page? && page(ns, o).next != "" ==>
      rank(ns, o.(token := page(ns, o).next)) < rank(ns, o)
  }

  /** The replies of a whole walk, in order. */
  ghost function Replies<T>(page: Server<T>, rank: (string, ListOptions) -> nat, ns: string,
      o: ListOptions): (rs: seq<Reply<T>>)
    requires RunsOut(page, rank)
    ensures rs != [] && rs[0] == page(ns, o)
    decreases rank(ns, o)
  {
    var r := page(ns, o);
    if r.Failed? || r.next == "" then [r] else [r] + Replies(page, rank, ns, o.(token := r.next))
  }

  /** All items in order, or the error that ended the walk. */
  function Drained<T>(replies: seq<Reply<T>>): Outcome<T> {
    if replies == [] then Ok([])
    else match replies[0]
      case Failed(e) => Err(e)
      case Page(items, _, _) =>
        match Drained(replies[1..])
        case Ok(rest) => Ok(items + rest)
        case Err(e) => Err(e)
  }

  ghost function ListIn<T>(page: Server<T>, rank: (string, ListOptions) -> nat, ns: string,
      opts: ListOptions): Outcome<T>
    requires RunsOut(page, rank)
  {
    Drained(Replies(page, rank, ns, opts.(limit := CHUNK_SIZE)))
  }

  function Prepend<T>(acc: seq<T>, out: Outcome<T>): Outcome<T> {
    match out case Ok(items) => Ok(acc + items) case Err(e) => Err(e)
  }

  lemma DrainStep<T>(page: Server<T>, rank: (string, ListOptions) -> nat, ns: string, o: ListOptions)
    requires RunsOut(page, rank)
    ensures var r, all := page(ns, o), Drained(Replies(page, rank, ns, o));
      && (r.Failed? ==> all == Err(r.error))
      && (r.Page? && r.next == "" ==> all == Ok(r.items))
      && (r.Page? && r.next != "" ==> all == Prepend(r.items, Drained(Replies(page, rank, ns, o.(token := r.next)))))
  {
    var r := page(ns, o);
    if r.Page? && r.next != "" {
      var rest := Replies(page, rank, ns, o.(token := r.next));
      assert ([r] + rest)[1..] == rest;
    } else {
      assert [r][1..] == [];
    }
  }

  /** Request `k` repeats the caller's selector with the chunk limit, carries the token of the
      reply before it, and is what reply `k` answers. */
  ghost predicate Asked<T>(page: Server<T>, ns: string, opts: ListOptions, requests: seq<ListOptions>,
      replies: seq<Reply<T>>, k: nat) {
    && k < |requests| && k < |replies|
    && requests[k].selector == opts.selector && requests[k].limit == 2000
    && (k == 0 ==> requests[k].token == opts.token)
    && (k > 0 ==> replies[k - 1].Page? && requests[k].token == replies[k - 1].next)
    && replies[k] == page(ns, requests[k])
  }

  /** The first requests of a walk that has come to the reply to `o`. */
  ghost predicate Walked<T>(page: Server<T>, rank: (string, ListOptions) -> nat, ns: string, opts: ListOptions,
      o: ListOptions, requests: seq<ListOptions>, replies: seq<Reply<T>>)
    requires RunsOut(page, rank)
  {
    && 0 < |requests| <= |replies|
    && requests[|requests| - 1] == o && o.selector == opts.selector && o.limit == CHUNK_SIZE
    && replies[|requests| - 1..] == Replies(page, rank, ns, o)
    && forall k :: 0 <= k < |requests| ==> Asked(page, ns, opts, requests, replies, k)
  }

  lemma WalkOn<T>(page: Server<T>, rank: (string, ListOptions) -> nat, ns: string, opts: ListOptions,
      o: ListOptions, requests: seq<ListOptions>, replies: seq<Reply<T>>)
    requires RunsOut(page, rank) && Walked(page, rank, ns, opts, o, requests, replies)
    requires page(ns, o).Page? && page(ns, o).next != ""
    ensures var o' := o.(token := page(ns, o).next);
      Walked(page, rank, ns, opts, o', requests + [o'], replies)
  {
    var n, o' := |requests|, o.(token := page(ns, o).next);
    var rest := Replies(page, rank, ns, o');
    assert replies[n - 1..] == [page(ns, o)] + rest;
    assert replies[n..] == replies[n - 1..][1..] == rest;
    assert replies[n - 1] == replies[n - 1..][0] && replies[n] == rest[0];
    forall k | 0 <= k <= n ensures Asked(page, ns, opts, requests + [o'], replies, k) {
      if k < n { assert Asked(page, ns, opts, requests, replies, k); }
    }
  }

  lemma WalkOver<T>(page: Server<T>, rank: (string, ListOptions) -> nat, ns: string, opts: ListOptions,
      o: ListOptions, requests: seq<ListOptions>, replies: seq<Reply<T>>)
    requires RunsOut(page, rank) && Walked(page, rank, ns, opts, o, requests, replies)
    requires page(ns, o).Failed? || page(ns, o).next == ""
    ensures |requests| == |replies|
  {
    assert replies[|requests| - 1..] == [page(ns, o)];
  }

  /** What the pages after the reply to `o` still bring. */
  ghost function Ahead<T>(page: Server<T>, rank: (string, ListOptions) -> nat, ns: string, o: ListOptions): Outcome<T>
    requires RunsOut(page, rank)
  {
    var r := page(ns, o);
    if r.Page? && r.next != "" then Drained(Replies(page, rank, ns, o.(token := r.next))) else Ok([])
  }

  lemma DrainAhead<T>(page: Server<T>, rank: (string, ListOptions) -> nat, ns: string, o: ListOptions, acc: seq<T>)
    requires RunsOut(page, rank) && page(ns, o).Page?
    ensures Prepend(acc, Drained(Replies(page, rank, ns, o))) ==
      Prepend(acc + page(ns, o).items, Ahead(page, rank, ns, o))
  {
    DrainStep(page, rank, ns, o);
    PrependTwice(acc, page(ns, o).items, Ahead(page, rank, ns, o));
    assert page(ns, o).items + [] == page(ns, o).items;
  }

  /** list.go:87-113. `requests` records what was asked, in order. What the server says is
      left only sizes the accumulator, which does not show in a sequence. */
  method ListAll<T>(page: Server<T>, ns: string, opts: ListOptions, ghost rank: (string, ListOptions) -> nat)
    returns (out: Outcome<T>, requests: seq<ListOptions>)
    requires RunsOut(page, rank)
    ensures out == ListIn(page, rank, ns, opts)
    ensures var replies := Replies(page, rank, ns, opts.(limit := CHUNK_SIZE));
      |requests| == |replies| && forall k :: 0 <= k < |replies| ==> Asked(page, ns, opts, requests, replies, k)
  {
    var o := opts.(limit := CHUNK_SIZE);
    ghost var replies := Replies(page, rank, ns, o);
    requests := [o];
    var reply := page(ns, o);
    assert Walked(page, rank, ns, opts, o, requests, replies);
    DrainStep(page, rank, ns, o);
    if reply.Failed? {
      WalkOver(page, rank, ns, opts, o, requests, replies);
      return Err(reply.error), requests;
    }
    if reply.next == "" {
      WalkOver(page, rank, ns, opts, o, requests, replies);
      return Ok(reply.items), requests;
    }
    var all := reply.items;
    while reply.next != ""
      invariant reply.Page? && reply == page(ns, o)
      invariant Drained(replies) == Prepend(all, Ahead(page, rank, ns, o))
      invariant Walked(page, rank, ns, opts, o, requests, replies)
      decreases rank(ns, o)
    {
      WalkOn(page, rank, ns, opts, o, requests, replies);
      o := o.(token := reply.next);
      requests := requests + [o];
      reply := page(ns, o);
      if reply.Failed? {
        DrainStep(page, rank, ns, o);
        WalkOver(page, rank, ns, opts, o, requests, replies);
        return Err(reply.error), requests;
      }
      DrainAhead(page, rank, ns, o, all);
      all := all + reply.items;
    }
    WalkOver(page, rank, ns, opts, o, requests, replies);
    assert all + [] == all;
    out := Ok(all);
  }

  lemma PrependTwice<T>(a: seq<T>, b: seq<T>, out: Outcome<T>)
    ensures Prepend(a, Prepend(b, out)) == Prepend(a + b, out)
  {
    if out.Ok? { assert a + (b + out.items) == a + b + out.items; }
  }

  // ---- what a walk returns --------------------------------------------------------------------

  /** An error on any page returns no items, and only the last reply can be one. */
  lemma {:induction false} FirstFailureEndsTheWalk<T>(page: Server<T>, rank: (string, ListOptions) -> nat,
      ns: string, o: ListOptions)
    requires RunsOut(page, rank)
    ensures var rs := Replies(page, rank, ns, o);
      && (forall k :: 0 <= k < |rs| - 1 ==> rs[k].Page? && rs[k].next != "")
      && (rs[|rs| - 1].Failed? ==> Drained(rs) == Err(rs[|rs| - 1].error))
      && (rs[|rs| - 1].Page? ==> rs[|rs| - 1].next == "" && Drained(rs) == Ok(AllItems(rs)))
    decreases rank(ns, o)
  {
    var r := page(ns, o);
    DrainStep(page, rank, ns, o);
    if r.Page? && r.next != "" {
      var rest := Replies(page, rank, ns, o.(token := r.next));
      FirstFailureEndsTheWalk(page, rank, ns, o.(token := r.next));
      var rs := [r] + rest;
      assert rs[1..] == rest;
      assert rs[|rs| - 1] == rest[|rest| - 1];
    }
  }

  function AllItems<T>(rs: seq<Reply<T>>): seq<T> {
    if rs == [] then [] else (if rs[0].Page? then rs[0].items else []) + AllItems(rs[1..])
  }

  /** Every token the server issues stands for what is left of one collection; its page is the
      next piece of that, of whatever size, and the last page has no token. What the server
      does with a token it never issued is left open. */
  ghost predicate Serves<T(!new)>(page: Server<T>, ns: string, selector: string, issued: string -> bool,
      left: string -> seq<T>) {
    forall token :: issued(token) ==>
      var r := page(ns, ListOptions(selector, CHUNK_SIZE, token));
      && r.Page? && r.items <= left(token)
      && (r.next == "" ==> r.items == left(token))
      && (r.next != "" ==> issued(r.next) && left(r.next) == left(token)[|r.items|..])
  }

  /** However the server splits the collection, the walk returns exactly it, in order. */
  lemma {:induction false} WalkReturnsTheCollection<T(!new)>(page: Server<T>, rank: (string, ListOptions) -> nat,
      ns: string, o: ListOptions, issued: string -> bool, left: string -> seq<T>)
    requires RunsOut(page, rank) && o.limit == CHUNK_SIZE
    requires Serves(page, ns, o.selector, issued, left) && issued(o.token)
    ensures Drained(Replies(page, rank, ns, o)) == Ok(left(o.token))
    decreases rank(ns, o)
  {
    var r := page(ns, o);
    assert o == ListOptions(o.selector, CHUNK_SIZE, o.token);
    DrainStep(page, rank, ns, o);
    if r.next != "" {
      WalkReturnsTheCollection(page, rank, ns, o.(token := r.next), issued, left);
      assert r.items + left(o.token)[|r.items|..] == left(o.token);
    }
  }

  /** Pages are filled up to the limit. */
  ghost predicate FullPages<T(!new)>(page: Server<T>, ns: string, selector: string, issued: string -> bool,
      left: string -> seq<T>) {
    forall token :: issued(token) ==>
      var r := page(ns, ListOptions(selector, CHUNK_SIZE, token));
      r.Page? ==>
        && |r.items| == (if |left(token)| < CHUNK_SIZE then |left(token)| else CHUNK_SIZE)
        && (r.next == "" <==> |left(token)| <= CHUNK_SIZE)
  }

  function RoundTrips(n: nat): nat {
    if n <= CHUNK_SIZE then 1 else (n + CHUNK_SIZE - 1) / CHUNK_SIZE
  }

  lemma {:induction false} WalkCost<T(!new)>(page: Server<T>, rank: (string, ListOptions) -> nat,
      ns: string, o: ListOptions, issued: string -> bool, left: string -> seq<T>)
    requires RunsOut(page, rank) && o.limit == CHUNK_SIZE && issued(o.token)
    requires Serves(page, ns, o.selector, issued, left) && FullPages(page, ns, o.selector, issued, left)
    ensures |Replies(page, rank, ns, o)| == RoundTrips(|left(o.token)|)
    decreases rank(ns, o)
  {
    var r := page(ns, o);
    assert o == ListOptions(o.selector, CHUNK_SIZE, o.token);
    if r.next != "" {
      WalkCost(page, rank, ns, o.(token := r.next), issued, left);
    }
  }
}
