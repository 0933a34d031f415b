/** Descriptors as the kernel presents them: a read or a write may transfer less
    than was asked, be interrupted, or fail. The plan of a descriptor decides
    which, and every statement here holds for every plan. */
module Stream {
  import opened CText

  datatype Event = Interrupt | Break | Move(n: nat)

  /** read() or write(): a count, EINTR, or another error. */
  datatype Transfer = Count(n: nat) | Eintr | Failed

  /** How much moves: at least one byte when there is one, at most `most`. */
  function Portion(plan: seq<Event>, most: nat): (n: nat)
    ensures n <= most && (n == 0 <==> most == 0)
  {
    if plan != [] && plan[0].Move? && plan[0].n < most then (if plan[0].n == 0 then 1 else plan[0].n)
    else most
  }

  function Rest(plan: seq<Event>): seq<Event> {
    if plan == [] then [] else plan[1..]
  }

  function Min(a: nat, b: nat): nat {
    if a < b then a else b
  }

  /** Only a planned failure makes a transfer loop give up. */
  predicate Sound(plan: seq<Event>) {
    forall i :: 0 <= i < |plan| ==> !plan[i].Break?
  }

  /** The reading end of a connection; it ends when `unread` is exhausted. */
  class Source {
    var unread: string
    var plan: seq<Event>

    constructor (s: string, p: seq<Event>)
      ensures unread == s && plan == p
    {
      unread, plan := s, p;
    }

    /** read(fd, dst + at, n). */
    method Read(dst: array<char>, at: nat, n: nat) returns (r: Transfer)
      requires at + n <= dst.Length
      modifies this, dst
      ensures plan == Rest(old(plan))
      ensures r.Eintr? <==> old(plan) != [] && old(plan)[0].Interrupt?
      ensures r.Failed? <==> old(plan) != [] && old(plan)[0].Break?
      ensures Sound(old(plan)) ==> !r.Failed? && Sound(plan)
      ensures !r.Count? ==> unread == old(unread) && dst[..] == old(dst[..])
      ensures r.Count? ==> r.n == Portion(old(plan), Min(n, |old(unread)|))
      ensures r.Count? ==> unread == old(unread)[r.n..]
      ensures r.Count? ==> dst[..] == old(dst[..at]) + old(unread)[..r.n] + old(dst[at + r.n..])
    {
      var now := plan;
      plan := Rest(plan);
      if now != [] && now[0].Interrupt? {
        return Eintr;
      }
      if now != [] && now[0].Break? {
        return Failed;
      }
      var k := Portion(now, Min(n, |unread|));
      forall i | 0 <= i < k {
        dst[at + i] := unread[i];
      }
      unread := unread[k..];
      return Count(k);
    }
  }

  /** The writing end; `written` is what the other side will read. */
  class Sink {
    var written: string
    var plan: seq<Event>

    constructor (p: seq<Event>)
      ensures written == "" && plan == p
    {
      written, plan := "", p;
    }

    /** write(fd, data). */
    method Write(data: string) returns (r: Transfer)
      modifies this
      ensures plan == Rest(old(plan))
      ensures r.Eintr? <==> old(plan) != [] && old(plan)[0].Interrupt?
      ensures r.Failed? <==> old(plan) != [] && old(plan)[0].Break?
      ensures Sound(old(plan)) ==> !r.Failed? && Sound(plan)
      ensures !r.Count? ==> written == old(written)
      ensures r.Count? ==> r.n <= |data| && (r.n == 0 <==> data == "") && written == old(written) + data[..r.n]
    {
      var now := plan;
      plan := Rest(plan);
      if now != [] && now[0].Interrupt? {
        return Eintr;
      }
      if now != [] && now[0].Break? {
        return Failed;
      }
      var k := Portion(now, |data|);
      written := written + data[..k];
      return Count(k);
    }
  }

  /** What a loop that reads `n` bytes, where `there` are left, makes of the plan:
      the events after it, or nothing when one of its reads fails. */
  function ReadRun(plan: seq<Event>, n: nat, there: nat): (left: Option<seq<Event>>)
    ensures Sound(plan) ==> left.Some? && Sound(left.value)
  {
    if n == 0 || plan == [] then Some(plan)
    else match plan[0]
      case Interrupt => ReadRun(plan[1..], n, there)
      case Break => None
      case Move(_) =>
        var k := Portion(plan, Min(n, there));
        if k == 0 then Some(plan[1..]) else ReadRun(plan[1..], n - k, there - k)
  }

  /** What lies behind the bytes that are wanted makes no difference. */
  lemma {:induction false} ReadRunEnough(plan: seq<Event>, n: nat, there: nat)
    requires n <= there
    ensures ReadRun(plan, n, there) == ReadRun(plan, n, n)
    decreases |plan|
  {
    if n > 0 && plan != [] {
      match plan[0]
      case Interrupt => ReadRunEnough(plan[1..], n, there);
      case Break =>
      case Move(_) =>
        var k := Portion(plan, n);
        ReadRunEnough(plan[1..], n - k, there - k);
    }
  }

  lemma ReadRunNext(plan: seq<Event>, n: nat, there: nat)
    requires n > 0
    ensures var next := ReadRun(Rest(plan), n, there);
      if plan == [] then true
      else match plan[0]
        case Interrupt => ReadRun(plan, n, there) == next
        case Break => ReadRun(plan, n, there) == None
        case Move(_) =>
          var k := Portion(plan, Min(n, there));
          ReadRun(plan, n, there) == if k == 0 then Some(Rest(plan)) else ReadRun(Rest(plan), n - k, there - k)
    ensures forall m: nat, t: nat :: ReadRun([], m, t) == Some([])
  {
  }

  /** readn: -1 on failure, else the count, short only at the end of the data. */
  method Readn(fd: Source, dst: array<char>, n: nat) returns (rc: int)
    requires n <= dst.Length
    modifies fd, dst
    ensures rc == if ReadRun(old(fd.plan), n, |old(fd.unread)|).None? then -1 else Min(n, |old(fd.unread)|)
    ensures rc != -1 ==> Some(fd.plan) == ReadRun(old(fd.plan), n, |old(fd.unread)|)
    ensures rc != -1 ==> fd.unread == old(fd.unread)[rc..] && dst[..rc] == old(fd.unread)[..rc]
    ensures rc != -1 ==> dst[rc..] == old(dst[rc..])
  {
    hide ReadRun;
    var nleft: nat, ptr: nat := n, 0;
    while nleft > 0
      invariant nleft + ptr == n && ptr <= |old(fd.unread)|
      invariant fd.unread == old(fd.unread)[ptr..]
      invariant dst[..ptr] == old(fd.unread)[..ptr] && dst[ptr..] == old(dst[ptr..])
      invariant ReadRun(fd.plan, nleft, |fd.unread|) == ReadRun(old(fd.plan), n, |old(fd.unread)|)
      decreases |fd.plan|, nleft
    {
      ghost var was := dst[..];
      ReadRunNext(fd.plan, nleft, |fd.unread|);
      var r := fd.Read(dst, ptr, nleft);
      match r {
        case Failed => return -1;
        case Eintr =>
        case Count(0) => return n - nleft;
        case Count(nread) =>
          assert dst[..ptr + nread] == was[..ptr] + old(fd.unread)[ptr..][..nread];
          assert dst[ptr + nread..] == was[ptr..][nread..];
          nleft := nleft - nread;
          ptr := ptr + nread;
      }
    }
    ReadRunNone(fd.plan, |fd.unread|);
    return n - nleft;
  }

  lemma ReadRunNone(plan: seq<Event>, there: nat)
    ensures ReadRun(plan, 0, there) == Some(plan)
  {
  }

  /** writen: everything, in order, or -1 after some prefix of it. */
  method Writen(fd: Sink, data: string) returns (rc: int)
    modifies fd
    ensures rc == -1 || rc == |data|
    ensures Sound(old(fd.plan)) ==> rc == |data| && Sound(fd.plan)
    ensures rc == |data| ==> fd.written == old(fd.written) + data
    ensures exists k :: 0 <= k <= |data| && fd.written == old(fd.written) + data[..k]
  {
    var nleft: nat, ptr: nat := |data|, 0;
    while nleft > 0
      invariant nleft + ptr == |data| && fd.written == old(fd.written) + data[..ptr]
      invariant Sound(old(fd.plan)) ==> Sound(fd.plan)
      decreases |fd.plan|, nleft
    {
      var r := fd.Write(data[ptr..]);
      match r {
        case Failed => return -1;
        case Eintr =>
        case Count(nwritten) =>
          assert data[..ptr + nwritten] == data[..ptr] + data[ptr..][..nwritten];
          nleft := nleft - nwritten;
          ptr := ptr + nwritten;
      }
    }
    assert data[..ptr] == data;
    return |data|;
  }
}
