/** The command list of core/rtw_cmd.c and the functions that work on it, one call at a time:
  * what each leaves of the list, the commands and the contexts of their waiters.  How the calls
  * of different threads interleave is the subject of CmdProtocol. */
module CmdQueue {

  import CP = CmdProtocol
  import opened Sequences

  const MAX_CMDSZ := 1536

  /** struct submit_ctx */
  class Sctx {
    var status: CP.Status
    var done: bool

    constructor ()
      ensures status == CP.Submitted && !done
    {
      status, done := CP.Submitted, false;
    }
  }

  /** struct cmd_obj; alive says that it was not given back to the allocator. */
  class CmdObj {
    const chanplan: bool      // cmdcode is CMD_SET_CHANPLAN
    const noIo: bool          // no_io
    const cmdsz: nat
    var sctx: Sctx?
    ghost var alive: bool

    constructor (chanplan: bool, noIo: bool, cmdsz: nat, sctx: Sctx?)
      ensures this.chanplan == chanplan && this.noIo == noIo && this.cmdsz == cmdsz && this.sctx == sctx && alive
    {
      this.chanplan, this.noIo, this.cmdsz, this.sctx, alive := chanplan, noIo, cmdsz, sctx, true;
    }
  }

  /** struct cmd_priv */
  class CmdPriv {
    var queue: seq<CmdObj>
    var sema: nat
    var running: bool         // cmdthd_running
    var hwInit: bool          // hw_init_completed
    ghost var gone: seq<CmdObj>   // what left the list for good, in order

    constructor ()
      ensures Valid() && queue == [] && gone == [] && sema == 0 && running && !hwInit
    {
      queue, sema, running, hwInit, gone := [], 0, true, false, [];
    }

    /** The commands on the list are live, each is there once, and no two have one waiter. */
    ghost predicate Valid()
      reads this, queue
    {
      && (forall c :: c in queue ==> c.alive)
      && Distinct(queue)
      && (forall j, k :: 0 <= j < k < |queue| && queue[j].sctx != null ==> queue[j].sctx != queue[k].sctx)
    }

    predicate Allowed(c: CmdObj)
      reads this`running, this`hwInit
    {
      running && (hwInit || c.chanplan || c.noIo)
    }

    /** rtw_cmd_filter */
    method CmdFilter(c: CmdObj) returns (ok: bool)
      ensures ok == Allowed(c)
    {
      var bAllow := false;
      if c.chanplan { bAllow := true; }
      if c.noIo { bAllow := true; }
      if (!hwInit && !bAllow) || !running { return false; }
      ok := true;
    }

    /** _rtw_enqueue_cmd, which always succeeds. */
    method Insert(c: CmdObj?, toHead: bool) returns (ok: bool)
      modifies this`queue
      ensures ok
      ensures queue == if c == null then old(queue) else if toHead then [c] + old(queue) else old(queue) + [c]
    {
      ok := true;
      if c == null { return; }
      queue := if toHead then [c] + queue else queue + [c];
    }

    /** _rtw_dequeue_cmd */
    method Dequeue() returns (c: CmdObj?)
      modifies this`queue
      ensures c == null <==> old(queue) == []
      ensures if c == null then queue == old(queue) else old(queue) == [c] + queue
    {
      c := null;
      if queue != [] {
        c := queue[0];
        queue := queue[1..];
      }
    }

    /** rtw_free_cmd_obj */
    method FreeCmdObj(c: CmdObj)
      requires c.alive
      modifies c`alive
      ensures !c.alive
    {
      c.alive := false;
    }

    /** Whether this command may join the list: it is live, and so is its waiter's turn. */
    ghost predicate Fresh(c: CmdObj)
      reads this`queue, queue, c
    {
      c.alive && c !in queue && forall d :: d in queue && c.sctx != null ==> d.sctx != c.sctx
    }

    /** rtw_enqueue_cmd.  A command that is allowed and not too long is on the list and the
      * semaphore is raised; any other is freed.  The result is the filter's alone. */
    method Enqueue(c: CmdObj?) returns (ok: bool)
      requires Valid() && (c != null ==> Fresh(c))
      modifies this`queue, this`sema, (if c != null then {c} else {})`alive
      ensures Valid()
      ensures c == null ==> !ok && queue == old(queue) && sema == old(sema)
      ensures c != null && Allowed(c) && c.cmdsz <= MAX_CMDSZ ==>
                ok && queue == old(queue) + [c] && sema == old(sema) + 1 && c.alive
      ensures c != null && !(Allowed(c) && c.cmdsz <= MAX_CMDSZ) ==>
                ok == Allowed(c) && queue == old(queue) && sema == old(sema) && !c.alive
      ensures c != null ==> ((ok ==> c in queue) <==> (Allowed(c) ==> c.cmdsz <= MAX_CMDSZ))
    {
      if c == null { return false; }
      ok := CmdFilter(c);
      if !ok || c.cmdsz > MAX_CMDSZ {
        FreeCmdObj(c);
        return;
      }
      ok := Insert(c, false);
      if ok { sema := sema + 1; }
    }

    /** rtw_sctx_done_err on the context of a command. */
    method SctxDoneErr(c: CmdObj, status: CP.Status)
      modifies c`sctx, (if c.sctx != null then {c.sctx} else {})
      ensures c.sctx == null
      ensures old(c.sctx) != null ==> old(c.sctx).status == status && old(c.sctx).done
    {
      if c.sctx != null {
        c.sctx.status := status;
        c.sctx.done := true;
        c.sctx := null;
      }
    }

    ghost function Waiters(): set<Sctx>
      reads this`queue, queue`sctx
    {
      set c | c in queue && c.sctx != null :: c.sctx
    }

    /** A command of the list is dropped. */
    method Drop(c: CmdObj)
      requires c.alive
      modifies this`gone, c`alive, c`sctx, (if c.sctx != null then {c.sctx} else {})
      ensures gone == old(gone) + [c] && Freed(c) && Told(old(c.sctx))
    {
      SctxDoneErr(c, CP.CmdDrop);
      FreeCmdObj(c);
      gone := gone + [c];
    }

    /** The drain loop, over a list whose commands and waiters are all different. */
    method DropAll(ghost ctxs: seq<Sctx?>)
      requires |ctxs| == |queue|
      requires forall k :: 0 <= k < |queue| ==> Untouched(queue[k], ctxs[k])
      requires forall j, k :: 0 <= j < |queue| && 0 <= k < |queue| && j != k ==> Apart(queue[j], ctxs[j], queue[k], ctxs[k])
      modifies this`queue, this`gone, queue`alive, queue`sctx, set x | x in ctxs && x != null
      ensures queue == [] && gone == old(gone + queue)
      ensures forall k :: 0 <= k < |old(queue)| ==> Freed(old(queue)[k]) && Told(ctxs[k])
    {
      hide Freed, Told;
      ghost var all, was := queue, gone;
      ghost var i := 0;
      while true
        invariant i <= |all| && gone == was + all[..i] && queue == all[i..]
        invariant forall k :: 0 <= k < i ==> Freed(all[k])
        invariant forall k :: 0 <= k < i ==> Told(ctxs[k])
        invariant forall k :: i <= k < |all| ==> Untouched(all[k], ctxs[k])
        decreases |all| - i
      {
        var pcmd := Dequeue();
        if pcmd == null { break; }
        TakeOne(all, i);
        label L:
        Drop(pcmd);
        forall k | 0 <= k < |all| && k != i
          ensures old@L(Freed(all[k])) ==> Freed(all[k])
          ensures old@L(Told(ctxs[k])) ==> Told(ctxs[k])
          ensures old@L(Untouched(all[k], ctxs[k])) ==> Untouched(all[k], ctxs[k])
        {
          assert Apart(all[k], ctxs[k], all[i], ctxs[i]);
        }
        i := i + 1;
      }
    }

    /** The end of rtw_cmd_thread: no command is let in any more, and those on the list are
      * dropped in order, each freed once and its waiter, if any, woken with the drop status. */
    method DrainAll()
      requires Valid()
      modifies this`queue, this`running, this`gone, queue`alive, queue`sctx, Waiters()
      ensures Valid() && !running && queue == [] && gone == old(gone + queue)
      ensures forall k :: 0 <= k < |old(queue)| ==> Freed(old(queue)[k]) && Told(old(queue[k].sctx))
      ensures sema == old(sema) && hwInit == old(hwInit)
    {
      running := false;
      ghost var ctxs := Contexts(queue);
      DropAll(ctxs);
    }
  }

  predicate Apart(c: CmdObj, x: Sctx?, d: CmdObj, y: Sctx?) {
    c != d && (x != null ==> x != y)
  }

  ghost predicate Freed(c: CmdObj)
    reads c`alive, c`sctx
  {
    !c.alive && c.sctx == null
  }

  ghost predicate Told(x: Sctx?)
    reads x
  {
    x != null ==> x.status == CP.CmdDrop && x.done
  }

  ghost predicate Untouched(c: CmdObj, x: Sctx?)
    reads c`alive, c`sctx
  {
    c.alive && c.sctx == x
  }

  ghost function Contexts(s: seq<CmdObj>): (r: seq<Sctx?>)
    reads s`sctx
    ensures |r| == |s| && forall k :: 0 <= k < |s| ==> r[k] == s[k].sctx
  {
    if s == [] then [] else Contexts(s[..|s| - 1]) + [s[|s| - 1].sctx]
  }

  /** Before the hardware is up only a channel plan and commands that need no hardware are let in;
    * afterwards all; none when the thread has stopped. */
  method LetIn(chanplan: bool, noIo: bool, hwInit: bool, running: bool) returns (ok: bool)
    ensures ok <==> running && !(!hwInit && !chanplan && !noIo)
  {
    var p := new CmdPriv();
    p.hwInit, p.running := hwInit, running;
    var c := new CmdObj(chanplan, noIo, 0, null);
    ok := p.CmdFilter(c);
  }

  /** A command one byte too long, allowed by the filter: the caller is told it was queued, and it
    * was freed. */
  method OversizeSucceeds() returns (p: CmdPriv, c: CmdObj, ok: bool)
    ensures ok && !c.alive && p.queue == [] && p.sema == 0 && c.cmdsz == MAX_CMDSZ + 1
  {
    p := new CmdPriv();
    c := new CmdObj(false, true, MAX_CMDSZ + 1, null);
    ok := p.Enqueue(c);
  }
}
