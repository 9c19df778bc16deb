/** The system calls of the echo server, and a log of what they did to every descriptor. */
module Sockets {

  const INVALID_SOCK := -1

  /** The values of `errno` the server tells apart. Where EAGAIN is the same number as EWOULDBLOCK, there is no
      `Again`. */
  datatype Errno = InProgress | Again | WouldBlock | NotConnected | Other

  /** The errors after which `recv` and `send` count as not failed. */
  predicate NotNow(errno: Errno) { errno.InProgress? || errno.Again? || errno.WouldBlock? }

  lemma NotNowIs(errno: Errno)
    ensures NotNow(errno) <==> errno in {InProgress, Again, WouldBlock}
  {
  }

  /** The calls whose failure the server looks at; `SetFlags` is `fcntl(F_SETFL)`. */
  datatype Call = GetAddrInfo | Socket | SetFlags | Bind | Listen | Accept | Recv

  /** How the latest of these calls ended. */
  datatype Status = Success(call: Call) | Failed(call: Call, errno: Errno)

  /** The server gives up: nothing but an `accept` that would block is forgiven, and a failing `recv` costs only the
      client its slot. */
  predicate GivesUp(last: Status) {
    last.Failed? && last.call != Recv && !(last.call == Accept && last.errno == WouldBlock)
  }

  /** One opened descriptor: what its peer sent and was sent, the calls of `recv` and `send`, those of `send` that
      failed for now only, those of either that failed for good, `errno` after each that failed, in their order, and
      how often it was closed. */
  datatype Desc = Desc(fd: int, inp: seq<char>, out: seq<char>, polls: nat, sends: nat, transients: nat, faults: nat,
                       errs: seq<Errno>, closes: nat)

  function NewDesc(fd: int): Desc { Desc(fd, [], [], 0, 0, 0, 0, [], 0) }

  /** A new descriptor has nothing behind it. */
  lemma NothingYet(fd: int)
    ensures var d := NewDesc(fd);
      && d.fd == fd && d.inp == d.out == [] && d.errs == []
      && d.polls == d.sends == d.transients == d.faults == d.closes == 0
  {
  }

  /** What one `recv` came to. */
  datatype Got = Bytes(data: seq<char>) | RecvError(errno: Errno)

  /** It failed for good. */
  predicate Lost(got: Got) { got.RecvError? && !NotNow(got.errno) }

  function DataOf(got: Got): seq<char> { if got.Bytes? then got.data else [] }

  /** A descriptor after one `recv`. */
  function Polled(d: Desc, got: Got): Desc {
    d.(inp := d.inp + DataOf(got), polls := d.polls + 1, faults := d.faults + (if Lost(got) then 1 else 0),
       errs := d.errs + if got.RecvError? then [got.errno] else [])
  }

  /** A descriptor after one `send` of `data`. */
  function Taken(d: Desc, data: seq<char>, written: int, errno: Errno): Desc
    requires written <= |data|
  {
    var e := d.(sends := d.sends + 1);
    if written >= 0 then e.(out := d.out + data[..written])
    else if NotNow(errno) then e.(transients := d.transients + 1, errs := d.errs + [errno])
    else e.(faults := d.faults + 1, errs := d.errs + [errno])
  }

  /** The system calls. Their outcomes are arbitrary within what POSIX promises: a new descriptor is not one
      that is open, `recv` and `send` move at most as many bytes as they are given. */
  class Kernel {
    var descs: seq<Desc>
    var owner: map<int, nat>
    var misuses: nat          // calls on a descriptor that is not open
    var opens: nat            // calls of socket and accept
    var last: Status

    ghost predicate Valid()
      reads this
    {
      && (forall fd :: fd in owner ==>
            fd >= 0 && owner[fd] < |descs| && descs[owner[fd]].fd == fd && descs[owner[fd]].closes == 0)
      && (forall d :: 0 <= d < |descs| && descs[d].closes == 0 ==>
            descs[d].fd in owner && owner[descs[d].fd] == d)
      && (forall d :: 0 <= d < |descs| ==> descs[d].closes <= 1)
    }

    constructor ()
      ensures Valid() && descs == [] && owner == map[] && misuses == 0
    {
      descs, owner, misuses, opens, last := [], map[], 0, 0, Success(GetAddrInfo);
    }

    /** `socket` and `accept`. */
    method Open(call: Call) returns (fd: int, errno: Errno)
      requires Valid()
      modifies this
      ensures Valid() && misuses == old(misuses) && opens == old(opens) + 1
      ensures last == if fd < 0 then Failed(call, errno) else Success(call)
      ensures fd < 0 ==> fd == INVALID_SOCK && descs == old(descs) && owner == old(owner)
      ensures fd >= 0 ==> fd !in old(owner) && owner == old(owner)[fd := |old(descs)|]
      ensures fd >= 0 ==> descs == old(descs) + [NewDesc(fd)]
    {
      fd, errno := *, *;
      opens, last := opens + 1, Success(call);
      if fd < 0 || fd in owner {
        fd, last := INVALID_SOCK, Failed(call, errno);
      } else {
        owner := owner[fd := |descs|];
        descs := descs + [NewDesc(fd)];
      }
    }

    /** The calls that only prepare: `getaddrinfo`, which takes no descriptor, `fcntl`, `bind` and `listen`. */
    method Prepare(call: Call, fd: int) returns (ok: bool)
      requires Valid()
      modifies this
      ensures Valid() && descs == old(descs) && owner == old(owner) && opens == old(opens)
      ensures last.call == call && (ok <==> last.Success?)
      ensures misuses == old(misuses) + if call == GetAddrInfo || fd in owner then 0 else 1
    {
      var errno;
      ok, errno := *, *;
      if call != GetAddrInfo && fd !in owner {
        ok, misuses := false, misuses + 1;
      }
      last := if ok then Success(call) else Failed(call, errno);
    }

    method Close(fd: int)
      requires Valid()
      modifies this
      ensures Valid() && opens == old(opens) && last == old(last)
      ensures fd in old(owner) ==> misuses == old(misuses) && owner == old(owner) - {fd}
      ensures fd in old(owner) ==> descs == old(descs)[old(owner)[fd] := old(descs[owner[fd]]).(closes := 1)]
      ensures fd !in old(owner) ==> misuses == old(misuses) + 1 && owner == old(owner) && descs == old(descs)
    {
      if fd in owner {
        descs := descs[owner[fd] := descs[owner[fd]].(closes := 1)];
        owner := owner - {fd};
      } else {
        misuses := misuses + 1;
      }
    }

    method Recv(fd: int, buf: array<char>) returns (r: int, errno: Errno)
      requires Valid()
      modifies this, buf
      ensures Valid() && owner == old(owner) && opens == old(opens) && -1 <= r <= buf.Length
      ensures last == if r < 0 then Failed(Call.Recv, errno) else Success(Call.Recv)
      ensures fd in owner ==> misuses == old(misuses)
      ensures fd !in owner ==> r == -1 && misuses == old(misuses) + 1
      ensures fd !in owner ==> descs == old(descs)
      ensures fd in owner ==>
        descs == old(descs)[owner[fd] :=
          Polled(old(descs[owner[fd]]), if r < 0 then RecvError(errno) else Bytes(buf[..r]))]
    {
      r, errno := *, *;
      if fd !in owner {
        r, misuses, last := -1, misuses + 1, Failed(Call.Recv, errno);
      } else if 0 <= r <= buf.Length {
        last := Success(Call.Recv);
        for i := 0 to r
          modifies buf
        {
          buf[i] := *;
        }
        descs := descs[owner[fd] := Polled(descs[owner[fd]], Bytes(buf[..r]))];
      } else {
        r, last := -1, Failed(Call.Recv, errno);
        descs := descs[owner[fd] := Polled(descs[owner[fd]], RecvError(errno))];
      }
    }

    method Send(fd: int, data: seq<char>) returns (written: int, errno: Errno)
      requires Valid()
      modifies this
      ensures Valid() && owner == old(owner) && opens == old(opens) && -1 <= written <= |data|
      ensures fd in owner ==> misuses == old(misuses)
      ensures fd !in owner ==> written == -1 && errno == Other && misuses == old(misuses) + 1 && descs == old(descs)
      ensures fd in owner ==> descs == old(descs)[owner[fd] := Taken(old(descs[owner[fd]]), data, written, errno)]
    {
      written, errno := *, *;
      if fd !in owner {
        written, errno, misuses := -1, Other, misuses + 1;
      } else {
        if written < 0 || written > |data| {
          written := -1;
        }
        descs := descs[owner[fd] := Taken(descs[owner[fd]], data, written, errno)];
      }
    }
  }
}
