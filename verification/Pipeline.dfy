/**
 Many commands at once over several servers: requests are collected per server,
 sent, and the replies read back in the order of the commands.  Each server
 reads the bytes it is sent and writes its replies in order; what it replies
 may depend on all it was asked before.
 */
module Pipeline {
  import opened Resp
  import opened RespReader
  import Cluster

  datatype Command = Command(hashKey: Bytes, args: seq<Bytes>)

  /** The reply of a server to the last of the requests it has had. */
  type Behaviour = (int, seq<seq<Bytes>>) -> Reply

  /** A server working through its input: it reads request after request and replies to each. */
  function Serve(answer: Behaviour, server: int, history: seq<seq<Bytes>>, input: Bytes): Bytes
    decreases |input|
  {
    match ReadArray(input)
    case Err(_) => []
    case Ok(args, rest) =>
      ReadArrayAdvances(input);
      PrintReply(answer(server, history + [args])) + Serve(answer, server, history + [args], rest)
  }

  /** The requests a list of commands makes of one server, in order. */
  function RequestsTo(server: int, socketOf: Bytes -> int, commands: seq<Command>): seq<seq<Bytes>> {
    if commands == [] then []
    else
      var c := commands[|commands| - 1];
      RequestsTo(server, socketOf, commands[..|commands| - 1]) + if socketOf(c.hashKey) == server then [c.args] else []
  }

  /** The reply to the i-th command: its own server's, after all that server was asked up to it. */
  function OwnReply(answer: Behaviour, socketOf: Bytes -> int, commands: seq<Command>, i: nat): Reply
    requires i < |commands|
  {
    var server := socketOf(commands[i].hashKey);
    answer(server, RequestsTo(server, socketOf, commands[..i + 1]))
  }

  function PrintRequests(requests: seq<seq<Bytes>>): Bytes {
    if requests == [] then [] else PrintRequests(requests[..|requests| - 1]) + PrintArray(requests[|requests| - 1])
  }

  /** The replies to the requests from the k-th on, as they stand in the stream. */
  function RepliesFrom(answer: Behaviour, server: int, requests: seq<seq<Bytes>>, k: nat): Bytes
    requires k <= |requests|
    decreases |requests| - k
  {
    if k == |requests| then []
    else PrintReply(answer(server, requests[..k + 1])) + RepliesFrom(answer, server, requests, k + 1)
  }

  predicate Sendable(args: seq<Bytes>) {
    |args| <= MAX_INT && FitsAll(args)
  }

  function PrintFrom(requests: seq<seq<Bytes>>, k: nat): Bytes
    requires k <= |requests|
    decreases |requests| - k
  {
    if k == |requests| then [] else PrintArray(requests[k]) + PrintFrom(requests, k + 1)
  }

  lemma {:induction false} PrintBothWays(requests: seq<seq<Bytes>>, k: nat)
    requires k <= |requests|
    ensures PrintRequests(requests) == PrintRequests(requests[..k]) + PrintFrom(requests, k)
    decreases |requests| - k
  {
    hide PrintArray;
    if k == |requests| {
      assert requests[..k] == requests;
      assert PrintRequests(requests) + [] == PrintRequests(requests);
    } else {
      PrintBothWays(requests, k + 1);
      assert requests[..k + 1][..k] == requests[..k];
      assert PrintRequests(requests[..k]) + PrintArray(requests[k]) + PrintFrom(requests, k + 1)
             == PrintRequests(requests[..k]) + (PrintArray(requests[k]) + PrintFrom(requests, k + 1));
    }
  }

  lemma PrintArrayNotEmpty(args: seq<Bytes>)
    ensures PrintArray(args) != []
  {
  }

  lemma NothingToRead()
    ensures ReadArray([]) == Err(ConnectionClosed)
  {
    assert BeforeLF([]) == 0;
  }

  /** A server given the printed requests sees exactly those requests and replies to each in turn. */
  lemma {:induction false} ServeAll(answer: Behaviour, server: int, requests: seq<seq<Bytes>>, k: nat)
    requires k <= |requests| && forall i :: 0 <= i < |requests| ==> Sendable(requests[i])
    ensures Serve(answer, server, requests[..k], PrintFrom(requests, k)) == RepliesFrom(answer, server, requests, k)
    decreases |requests| - k
  {
    hide PrintArray, ReadArray, PrintReply, FitsAll;
    if k == |requests| {
      NothingToRead();
    } else {
      var rest := PrintFrom(requests, k + 1);
      ArrayRoundTrip(requests[k], rest);
      PrintArrayNotEmpty(requests[k]);
      assert requests[..k] + [requests[k]] == requests[..k + 1];
      ServeAll(answer, server, requests, k + 1);
    }
  }

  datatype Outcome = Replied(replies: seq<Reply>) | Threw(error: Error)

  lemma {:induction false} RequestsPrefix(server: int, socketOf: Bytes -> int, commands: seq<Command>, i: nat)
    requires i <= |commands|
    ensures var all, some := RequestsTo(server, socketOf, commands), RequestsTo(server, socketOf, commands[..i]);
            |some| <= |all| && all[..|some|] == some
    decreases |commands|
  {
    if i == |commands| {
      assert commands[..i] == commands;
    } else {
      RequestsPrefix(server, socketOf, commands[..|commands| - 1], i);
      assert commands[..|commands| - 1][..i] == commands[..i];
    }
  }

  lemma {:induction false} RequestsAreArgs(server: int, socketOf: Bytes -> int, commands: seq<Command>)
    requires forall i :: 0 <= i < |commands| ==> Sendable(commands[i].args)
    ensures forall r :: r in RequestsTo(server, socketOf, commands) ==> Sendable(r)
    decreases |commands|
  {
    hide Sendable;
    if commands == [] {
    } else {
      RequestsAreArgs(server, socketOf, commands[..|commands| - 1]);
    }
  }

  function BytesFor(streams: map<int, Bytes>, server: int): Bytes {
    if server in streams then streams[server] else []
  }

  lemma RequestsNext(server: int, socketOf: Bytes -> int, commands: seq<Command>, i: nat)
    requires i < |commands|
    ensures RequestsTo(server, socketOf, commands[..i + 1])
            == RequestsTo(server, socketOf, commands[..i])
               + if socketOf(commands[i].hashKey) == server then [commands[i].args] else []
  {
    assert commands[..i + 1][..i] == commands[..i];
  }

  lemma PrintNext(requests: seq<seq<Bytes>>, args: seq<Bytes>)
    ensures PrintRequests(requests + [args]) == PrintRequests(requests) + PrintArray(args)
    ensures requests + [] == requests
  {
    hide PrintArray;
    assert (requests + [args])[..|requests|] == requests;
  }

  lemma CollectNext(sent: map<int, Bytes>, socketOf: Bytes -> int, commands: seq<Command>, i: nat)
    requires i < |commands|
    requires forall s :: BytesFor(sent, s) == PrintRequests(RequestsTo(s, socketOf, commands[..i]))
    ensures var socket := socketOf(commands[i].hashKey);
            var sent' := sent[socket := BytesFor(sent, socket) + PrintArray(commands[i].args)];
            forall s :: BytesFor(sent', s) == PrintRequests(RequestsTo(s, socketOf, commands[..i + 1]))
  {
    hide PrintArray, RequestsTo, PrintRequests;
    var socket := socketOf(commands[i].hashKey);
    var sent' := sent[socket := BytesFor(sent, socket) + PrintArray(commands[i].args)];
    forall s ensures BytesFor(sent', s) == PrintRequests(RequestsTo(s, socketOf, commands[..i + 1])) {
      RequestsNext(s, socketOf, commands, i);
      PrintNext(RequestsTo(s, socketOf, commands[..i]), commands[i].args);
    }
  }

  /** Collect what each server is to be sent. */
  method Collect(socketOf: Bytes -> int, commands: seq<Command>) returns (sent: map<int, Bytes>)
    ensures forall s :: s in sent ==> exists i :: 0 <= i < |commands| && socketOf(commands[i].hashKey) == s
    ensures forall s :: BytesFor(sent, s) == PrintRequests(RequestsTo(s, socketOf, commands))
  {
    hide PrintArray, RequestsTo, PrintRequests;
    sent := map[];
    forall s ensures PrintRequests(RequestsTo(s, socketOf, commands[..0])) == [] {
      NoRequests(s, socketOf);
    }
    for i := 0 to |commands|
      invariant forall s :: s in sent ==> exists j :: 0 <= j < |commands| && socketOf(commands[j].hashKey) == s
      invariant forall s :: BytesFor(sent, s) == PrintRequests(RequestsTo(s, socketOf, commands[..i]))
    {
      var socket := socketOf(commands[i].hashKey);
      CollectNext(sent, socketOf, commands, i);
      sent := sent[socket := BytesFor(sent, socket) + PrintArray(commands[i].args)];
    }
    assert commands[..|commands|] == commands;
  }

  lemma NoRequests(server: int, socketOf: Bytes -> int)
    ensures RequestsTo(server, socketOf, []) == [] && PrintRequests([]) == []
  {
  }

  /** All servers working through what they were sent, from a fresh connection. */
  function ServeEach(answer: Behaviour, sent: map<int, Bytes>): map<int, Bytes> {
    map s | s in sent :: Serve(answer, s, [], sent[s])
  }

  lemma ServedReplies(answer: Behaviour, server: int, socketOf: Bytes -> int, commands: seq<Command>,
                      sent: map<int, Bytes>)
    requires forall i :: 0 <= i < |commands| ==> Sendable(commands[i].args)
    requires BytesFor(sent, server) == PrintRequests(RequestsTo(server, socketOf, commands))
    ensures BytesFor(ServeEach(answer, sent), server)
            == RepliesFrom(answer, server, RequestsTo(server, socketOf, commands), 0)
  {
    hide Sendable, RequestsTo, Serve, RepliesFrom, PrintFrom, PrintRequests;
    var requests := RequestsTo(server, socketOf, commands);
    RequestsAreArgs(server, socketOf, commands);
    PrintBothWays(requests, 0);
    ServeAll(answer, server, requests, 0);
    assert requests[..0] == [];
    NoRequests(server, socketOf);
    assert [] + PrintFrom(requests, 0) == PrintFrom(requests, 0);
    NothingServed(answer, server);
  }

  lemma NothingServed(answer: Behaviour, server: int)
    ensures Serve(answer, server, [], []) == []
  {
    hide ReadArray;
    NothingToRead();
  }

  /** What the i-th command should be handed. */
  function OwnDelivery(answer: Behaviour, socketOf: Bytes -> int, commands: seq<Command>, i: nat): Reply
    requires i < |commands|
  {
    Delivered(OwnReply(answer, socketOf, commands, i))
  }

  /** The client can read the server's replies to its commands among the first i. */
  predicate ReadableBefore(answer: Behaviour, socketOf: Bytes -> int, commands: seq<Command>, server: int, i: nat)
    requires i <= |commands|
  {
    forall j :: 0 <= j < i && socketOf(commands[j].hashKey) == server ==>
        Readable(OwnReply(answer, socketOf, commands, j))
  }

  predicate AllReadable(answer: Behaviour, socketOf: Bytes -> int, commands: seq<Command>) {
    forall i :: 0 <= i < |commands| ==> Readable(OwnReply(answer, socketOf, commands, i))
  }

  /** The first reply not yet read belongs to the next command of that server. */
  lemma NextReply(answer: Behaviour, socketOf: Bytes -> int, commands: seq<Command>, i: nat)
    requires i < |commands|
    ensures var server := socketOf(commands[i].hashKey);
            var all, k := RequestsTo(server, socketOf, commands), |RequestsTo(server, socketOf, commands[..i])|;
            && k < |all| && |RequestsTo(server, socketOf, commands[..i + 1])| == k + 1
            && var p, own := ReadReply(RepliesFrom(answer, server, all, k)), OwnDelivery(answer, socketOf, commands, i);
               if Readable(OwnReply(answer, socketOf, commands, i))
               then p == Ok(own, RepliesFrom(answer, server, all, k + 1))
               else p.Err? || p.value != own
  {
    hide ReadReply, PrintReply, Readable, Delivered, RequestsTo;
    var server := socketOf(commands[i].hashKey);
    var all := RequestsTo(server, socketOf, commands);
    var k := |RequestsTo(server, socketOf, commands[..i])|;
    RequestsNext(server, socketOf, commands, i);
    RequestsPrefix(server, socketOf, commands, i + 1);
    ReplyRoundTrip(OwnReply(answer, socketOf, commands, i), RepliesFrom(answer, server, all, k + 1));
  }

  lemma OtherServer(server: int, socketOf: Bytes -> int, commands: seq<Command>, i: nat)
    requires i < |commands| && socketOf(commands[i].hashKey) != server
    ensures |RequestsTo(server, socketOf, commands[..i + 1])| == |RequestsTo(server, socketOf, commands[..i])|
  {
    RequestsNext(server, socketOf, commands, i);
  }

  /** What is still to be read, after the first i commands, from each server whose replies could be read so far. */
  ghost predicate Unread(answer: Behaviour, socketOf: Bytes -> int, commands: seq<Command>, i: nat,
                         streams: map<int, Bytes>)
    requires i <= |commands|
  {
    forall s ::
      && |RequestsTo(s, socketOf, commands[..i])| <= |RequestsTo(s, socketOf, commands)|
      && (ReadableBefore(answer, socketOf, commands, s, i) ==>
            BytesFor(streams, s)
            == RepliesFrom(answer, s, RequestsTo(s, socketOf, commands), |RequestsTo(s, socketOf, commands[..i])|))
  }

  lemma UnreadAtStart(answer: Behaviour, socketOf: Bytes -> int, commands: seq<Command>, sent: map<int, Bytes>)
    requires forall i :: 0 <= i < |commands| ==> Sendable(commands[i].args)
    requires forall s :: BytesFor(sent, s) == PrintRequests(RequestsTo(s, socketOf, commands))
    ensures Unread(answer, socketOf, commands, 0, ServeEach(answer, sent))
  {
    hide Sendable, PrintRequests, ServeEach, BytesFor, RequestsTo;
    assert commands[..0] == [];
    forall s
      ensures RequestsTo(s, socketOf, commands[..0]) == []
      ensures BytesFor(ServeEach(answer, sent), s) == RepliesFrom(answer, s, RequestsTo(s, socketOf, commands), 0)
    {
      NoRequests(s, socketOf);
      ServedReplies(answer, s, socketOf, commands, sent);
    }
  }

  /** If the server's replies could be read so far, the command has its own reply exactly when that can be read too. */
  predicate OwnExactly(answer: Behaviour, socketOf: Bytes -> int, commands: seq<Command>, i: nat, reply: Reply)
    requires i < |commands|
  {
    ReadableBefore(answer, socketOf, commands, socketOf(commands[i].hashKey), i) ==>
      (reply == OwnDelivery(answer, socketOf, commands, i) <==> Readable(OwnReply(answer, socketOf, commands, i)))
  }

  lemma ReadableNext(answer: Behaviour, socketOf: Bytes -> int, commands: seq<Command>, server: int, i: nat)
    requires i < |commands|
    ensures ReadableBefore(answer, socketOf, commands, server, i + 1) <==>
            ReadableBefore(answer, socketOf, commands, server, i)
            && (socketOf(commands[i].hashKey) == server ==> Readable(OwnReply(answer, socketOf, commands, i)))
  {
    hide Readable, OwnReply;
  }

  lemma UnreadNext(answer: Behaviour, socketOf: Bytes -> int, commands: seq<Command>, i: nat, streams: map<int, Bytes>)
    requires i < |commands| && Unread(answer, socketOf, commands, i, streams)
    ensures var server := socketOf(commands[i].hashKey);
            match ReadReply(BytesFor(streams, server))
            case Err(_) => !AllReadable(answer, socketOf, commands)
            case Ok(reply, rest) =>
              OwnExactly(answer, socketOf, commands, i, reply)
              && Unread(answer, socketOf, commands, i + 1, streams[server := rest])
  {
    hide ReadReply, OwnReply, OwnDelivery, RequestsTo, RepliesFrom, Readable, ReadableBefore;
    var server := socketOf(commands[i].hashKey);
    NextReply(answer, socketOf, commands, i);
    AllReadableBefore(answer, socketOf, commands, server, i);
    forall s
      ensures ReadableBefore(answer, socketOf, commands, s, i + 1) <==>
              ReadableBefore(answer, socketOf, commands, s, i)
              && (server == s ==> Readable(OwnReply(answer, socketOf, commands, i)))
      ensures s != server ==> |RequestsTo(s, socketOf, commands[..i + 1])| == |RequestsTo(s, socketOf, commands[..i])|
    {
      ReadableNext(answer, socketOf, commands, s, i);
      if s != server {
        OtherServer(s, socketOf, commands, i);
      }
    }
  }

  lemma AllReadableBefore(answer: Behaviour, socketOf: Bytes -> int, commands: seq<Command>, server: int, i: nat)
    requires i <= |commands|
    ensures AllReadable(answer, socketOf, commands) ==> ReadableBefore(answer, socketOf, commands, server, i)
  {
    hide Readable, OwnReply;
  }

  /** What all commands should be handed. */
  function OwnDeliveries(answer: Behaviour, socketOf: Bytes -> int, commands: seq<Command>): seq<Reply> {
    seq(|commands|, i requires 0 <= i < |commands| => OwnDelivery(answer, socketOf, commands, i))
  }

  /** A command whose reply cannot be read, with none before it. */
  lemma {:induction false} FirstUnreadable(answer: Behaviour, socketOf: Bytes -> int, commands: seq<Command>, n: nat)
    returns (i: nat)
    requires n <= |commands| && exists j :: 0 <= j < n && !Readable(OwnReply(answer, socketOf, commands, j))
    ensures i < n && !Readable(OwnReply(answer, socketOf, commands, i))
    ensures forall j :: 0 <= j < i ==> Readable(OwnReply(answer, socketOf, commands, j))
  {
    hide Readable, OwnReply;
    if exists j :: 0 <= j < n - 1 && !Readable(OwnReply(answer, socketOf, commands, j)) {
      i := FirstUnreadable(answer, socketOf, commands, n - 1);
    } else {
      i := n - 1;
    }
  }

  lemma AllOwnExactly(answer: Behaviour, socketOf: Bytes -> int, commands: seq<Command>, replies: seq<Reply>)
    requires |replies| == |commands|
    requires forall i :: 0 <= i < |commands| ==> OwnExactly(answer, socketOf, commands, i, replies[i])
    ensures replies == OwnDeliveries(answer, socketOf, commands) <==> AllReadable(answer, socketOf, commands)
  {
    hide Readable, OwnReply, OwnDelivery;
    if !AllReadable(answer, socketOf, commands) {
      var i := FirstUnreadable(answer, socketOf, commands, |commands|);
      assert OwnExactly(answer, socketOf, commands, i, replies[i]);
    } else {
      forall i | 0 <= i < |commands| ensures replies[i] == OwnDelivery(answer, socketOf, commands, i) {
        assert OwnExactly(answer, socketOf, commands, i, replies[i]);
      }
    }
  }

  // ------------------------------------------------------------- the connections

  /** One connection per server; they are different objects. */
  ghost predicate Connected(sockets: map<int, Socket>)
    reads sockets.Values
  {
    && (forall s :: s in sockets ==> sockets[s].Valid())
    && (forall s, t :: s in sockets && t in sockets && s != t ==> sockets[s] != sockets[t])
  }

  /** What each connection still holds. */
  ghost function Incoming(sockets: map<int, Socket>): map<int, Bytes>
    reads sockets.Values
  {
    map s | s in sockets :: sockets[s].incoming
  }

  lemma UnreadSame(answer: Behaviour, socketOf: Bytes -> int, commands: seq<Command>, i: nat,
                   streams: map<int, Bytes>, others: map<int, Bytes>)
    requires i <= |commands| && Unread(answer, socketOf, commands, i, streams)
    requires forall s :: BytesFor(others, s) == BytesFor(streams, s)
    ensures Unread(answer, socketOf, commands, i, others)
  {
    hide RequestsTo, RepliesFrom, ReadableBefore, BytesFor;
  }

  /** Each server is sent its requests and answers on its own connection. */
  method SendAll(answer: Behaviour, sent: map<int, Bytes>, sockets: map<int, Socket>)
    requires Connected(sockets) && sent.Keys <= sockets.Keys
    requires forall s :: s in sockets ==> sockets[s].incoming == []
    modifies sockets.Values
    ensures Connected(sockets)
    ensures forall s :: BytesFor(Incoming(sockets), s) == BytesFor(ServeEach(answer, sent), s)
  {
    hide Serve;
    var rest := sent.Keys;
    while rest != {}
      invariant rest <= sent.Keys && Connected(sockets)
      invariant forall s :: s in sockets ==>
                  sockets[s].incoming == if s in sent && s !in rest then Serve(answer, s, [], sent[s]) else []
      decreases rest
    {
      Cluster.SomeMember(rest);
      var s :| s in rest;
      rest := rest - {s};
      sockets[s].Answered(Serve(answer, s, [], sent[s]));
      assert [] + Serve(answer, s, [], sent[s]) == Serve(answer, s, [], sent[s]);
    }
  }

  /** The reply to the i-th command is read from its own server's connection. */
  method ReadOne(answer: Behaviour, socketOf: Bytes -> int, commands: seq<Command>, i: nat, sockets: map<int, Socket>)
    returns (r: Result<Reply>)
    requires i < |commands| && socketOf(commands[i].hashKey) in sockets
    requires Connected(sockets) && Unread(answer, socketOf, commands, i, Incoming(sockets))
    modifies sockets.Values
    ensures Connected(sockets)
    ensures r.Failure? ==> !AllReadable(answer, socketOf, commands)
    ensures r.Success? ==>
              && OwnExactly(answer, socketOf, commands, i, r.value)
              && Unread(answer, socketOf, commands, i + 1, Incoming(sockets))
  {
    hide Unread, OwnExactly, AllReadable, ReadReply;
    var s := socketOf(commands[i].hashKey);
    ghost var streams := Incoming(sockets);
    UnreadNext(answer, socketOf, commands, i, streams);
    r := RecvGenericReply(sockets[s]);
    if r.Success? {
      forall t | t in sockets && t != s ensures sockets[t].incoming == streams[t] {
        assert sockets[t] != sockets[s];
      }
      assert Incoming(sockets) == streams[s := sockets[s].incoming];
    }
  }

  /**
   All commands get their own replies, however they are spread over the
   servers and however the bytes arrive, if and only if all replies can be
   read.  An unreadable reply throws, or gives its command something else and
   disturbs only later replies of its server.
   */
  method Exec(answer: Behaviour, socketOf: Bytes -> int, commands: seq<Command>, sockets: map<int, Socket>)
    returns (outcome: Outcome)
    requires forall i :: 0 <= i < |commands| ==> Sendable(commands[i].args)
    requires forall i :: 0 <= i < |commands| ==> socketOf(commands[i].hashKey) in sockets
    requires Connected(sockets) && forall s :: s in sockets ==> sockets[s].incoming == []
    modifies sockets.Values
    ensures Connected(sockets)
    ensures outcome == Replied(OwnDeliveries(answer, socketOf, commands)) <==> AllReadable(answer, socketOf, commands)
    ensures outcome.Replied? ==>
              && |outcome.replies| == |commands|
              && forall i :: 0 <= i < |commands| ==> OwnExactly(answer, socketOf, commands, i, outcome.replies[i])
  {
    hide Sendable, Serve, RequestsTo, PrintRequests, Unread, OwnExactly, AllReadable, OwnDeliveries, ServeEach;
    hide Incoming, BytesFor;
    var sent := Collect(socketOf, commands);
    forall s | s in sent ensures s in sockets {
      var i :| 0 <= i < |commands| && socketOf(commands[i].hashKey) == s;
    }
    SendAll(answer, sent, sockets);
    UnreadAtStart(answer, socketOf, commands, sent);
    UnreadSame(answer, socketOf, commands, 0, ServeEach(answer, sent), Incoming(sockets));
    var replies: seq<Reply> := [];
    for i := 0 to |commands|
      invariant Connected(sockets)
      invariant |replies| == i && forall j :: 0 <= j < i ==> OwnExactly(answer, socketOf, commands, j, replies[j])
      invariant Unread(answer, socketOf, commands, i, Incoming(sockets))
    {
      var reply := ReadOne(answer, socketOf, commands, i, sockets);
      if reply.Failure? {
        return Threw(reply.error);
      }
      replies := replies + [reply.value];
    }
    AllOwnExactly(answer, socketOf, commands, replies);
    outcome := Replied(replies);
  }
}
