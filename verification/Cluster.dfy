/**
 Commands over many keys when the keys live on several servers: what the client
 puts together from the servers' answers is what one server holding all the
 keys would have answered.  Which server a key lives on is any function.
 */
module Cluster {
  import opened Resp

  type Key = Bytes

  /** The values and sets stored on each server, by its socket. */
  datatype Servers = Servers(values: int -> map<Key, Bytes>, sets: (int, Key) -> set<Bytes>)

  function Lookup(store: map<Key, Bytes>, key: Key): Bytes {
    if key in store then store[key] else MISSING_VALUE
  }

  /** The value of a key, wherever it lives. */
  function ValueOf(servers: Servers, socketOf: Key -> int, key: Key): Bytes {
    Lookup(servers.values(socketOf(key)), key)
  }

  function SetOf(servers: Servers, socketOf: Key -> int, key: Key): set<Bytes> {
    servers.sets(socketOf(key), key)
  }

  // ------------------------------------------------------ answers of one server

  function AnswerMget(servers: Servers, socket: int, keys: seq<Key>): (values: seq<Bytes>)
    ensures |values| == |keys|
  {
    seq(|keys|, i requires 0 <= i < |keys| => Lookup(servers.values(socket), keys[i]))
  }

  function AnswerSinter(servers: Servers, socket: int, keys: seq<Key>): set<Bytes>
    requires keys != []
  {
    if |keys| == 1 then servers.sets(socket, keys[0])
    else servers.sets(socket, keys[0]) * AnswerSinter(servers, socket, keys[1..])
  }

  function AnswerSunion(servers: Servers, socket: int, keys: seq<Key>): set<Bytes> {
    if keys == [] then {} else servers.sets(socket, keys[0]) + AnswerSunion(servers, socket, keys[1..])
  }

  lemma {:induction false} SinterMembers(servers: Servers, socket: int, keys: seq<Key>, x: Bytes)
    requires keys != []
    ensures x in AnswerSinter(servers, socket, keys) <==> forall k :: k in keys ==> x in servers.sets(socket, k)
  {
    if |keys| <= 1 {
    } else {
      SinterMembers(servers, socket, keys[1..], x);
      assert keys == [keys[0]] + keys[1..];
    }
  }

  lemma {:induction false} SunionMembers(servers: Servers, socket: int, keys: seq<Key>, x: Bytes)
    ensures x in AnswerSunion(servers, socket, keys) <==> exists k :: k in keys && x in servers.sets(socket, k)
  {
    if keys == [] {
    } else {
      SunionMembers(servers, socket, keys[1..], x);
      assert keys == [keys[0]] + keys[1..];
    }
  }

  // -------------------------------------------------------- keys by their server

  /** Keys and their positions in the original list, by socket. */
  datatype ConnectionKeys = ConnectionKeys(keys: seq<Key>, indices: seq<nat>)

  /** Every key below n is filed once under its server, with its position, in the order of the keys. */
  predicate Filed(per: map<int, ConnectionKeys>, keys: seq<Key>, socketOf: Key -> int, n: nat)
    requires n <= |keys|
  {
    && (forall s :: s in per ==>
          && n > 0 && |per[s].keys| == |per[s].indices| > 0
          && forall j :: 0 <= j < |per[s].keys| ==>
               && per[s].indices[j] < n && per[s].keys[j] == keys[per[s].indices[j]] && socketOf(per[s].keys[j]) == s
               && forall i :: 0 <= i < j ==> per[s].indices[i] < per[s].indices[j])
    && (forall i :: 0 <= i < n ==> socketOf(keys[i]) in per && i in per[socketOf(keys[i])].indices)
  }

  method FileKeys(keys: seq<Key>, socketOf: Key -> int) returns (per: map<int, ConnectionKeys>)
    ensures Filed(per, keys, socketOf, |keys|)
  {
    per := map[];
    for i := 0 to |keys|
      invariant Filed(per, keys, socketOf, i)
    {
      var socket := socketOf(keys[i]);
      var before := if socket in per then per[socket] else ConnectionKeys([], []);
      FiledNext(per, keys, socketOf, i);
      per := per[socket := ConnectionKeys(before.keys + [keys[i]], before.indices + [i])];
    }
  }

  lemma FiledNext(per: map<int, ConnectionKeys>, keys: seq<Key>, socketOf: Key -> int, i: nat)
    requires i < |keys| && Filed(per, keys, socketOf, i)
    ensures var socket := socketOf(keys[i]);
            var before := if socket in per then per[socket] else ConnectionKeys([], []);
            Filed(per[socket := ConnectionKeys(before.keys + [keys[i]], before.indices + [i])], keys, socketOf, i + 1)
  {
  }

  lemma SomeMember(s: set<int>)
    ensures s == {} || exists x :: x in s
  {
    if forall x :: x !in s {
      assert s == {};
    }
  }

  /** The value of every key, in the order of the keys. */
  method Mget(servers: Servers, socketOf: Key -> int, keys: seq<Key>) returns (out: seq<Bytes>)
    ensures |out| == |keys|
    ensures forall i :: 0 <= i < |keys| ==> out[i] == ValueOf(servers, socketOf, keys[i])
  {
    out := seq(|keys|, i => []);
    var per := FileKeys(keys, socketOf);
    var rest: set<int> := per.Keys;
    while rest != {}
      invariant |out| == |keys| && rest <= per.Keys
      invariant forall i :: 0 <= i < |keys| && socketOf(keys[i]) !in rest ==>
                out[i] == ValueOf(servers, socketOf, keys[i])
      decreases rest
    {
      SomeMember(rest);
      var socket :| socket in rest;
      rest := rest - {socket};
      out := Scatter(servers, socketOf, keys, socket, per[socket], out);
    }
  }

  /** Put one server's answer in its places. */
  method Scatter(servers: Servers, socketOf: Key -> int, keys: seq<Key>, socket: int, filed: ConnectionKeys,
                 before: seq<Bytes>)
    returns (out: seq<Bytes>)
    requires |before| == |keys| && |filed.keys| == |filed.indices|
    requires forall j :: 0 <= j < |filed.keys| ==>
               filed.indices[j] < |keys| && filed.keys[j] == keys[filed.indices[j]] && socketOf(filed.keys[j]) == socket
    ensures |out| == |keys|
    ensures forall i :: 0 <= i < |keys| ==>
              out[i] == if i in filed.indices then ValueOf(servers, socketOf, keys[i]) else before[i]
  {
    out := before;
    var answer := AnswerMget(servers, socket, filed.keys);
    for j := 0 to |answer|
      invariant |out| == |keys|
      invariant forall i :: 0 <= i < |keys| ==>
                  out[i] == if i in filed.indices[..j] then ValueOf(servers, socketOf, keys[i]) else before[i]
    {
      out := out[filed.indices[j] := answer[j]];
    }
    assert filed.indices[..|answer|] == filed.indices;
  }

  /**
   The intersection of the sets of all keys.  With no keys at all nothing is
   asked and the caller's set stays as it was.
   */
  method Sinter(servers: Servers, socketOf: Key -> int, keys: seq<Key>, given: set<Bytes>)
    returns (out: set<Bytes>, size: nat)
    ensures size == |out|
    ensures keys == [] ==> out == given
    ensures keys != [] ==> forall x :: x in out <==> forall k :: k in keys ==> x in SetOf(servers, socketOf, k)
  {
    hide AnswerSinter;
    out := given;
    var per := FileKeys(keys, socketOf);
    var rest: set<int> := per.Keys;
    FiledServers(keys, socketOf, per);
    var i := 0;
    while rest != {}
      invariant rest <= per.Keys && (i == 0 ==> rest == per.Keys && out == given) && (keys == [] ==> i == 0)
      invariant i > 0 ==> forall x :: x in out <==>
                  forall k :: k in keys && socketOf(k) !in rest ==> x in SetOf(servers, socketOf, k)
      decreases rest
    {
      SomeMember(rest);
      var socket :| socket in rest;
      var current := AnswerSinter(servers, socket, per[socket].keys);
      SinterOfServer(servers, socketOf, keys, per, socket);
      out := if i > 0 then out * current else current;
      rest := rest - {socket};
      i := i + 1;
    }
    size := |out|;
  }

  lemma FiledServers(keys: seq<Key>, socketOf: Key -> int, per: map<int, ConnectionKeys>)
    requires Filed(per, keys, socketOf, |keys|)
    ensures per.Keys == {} <==> keys == []
  {
    SomeMember(per.Keys);
    if keys != [] {
      assert socketOf(keys[0]) in per;
    }
  }

  /** One server's answer covers exactly the keys that live there. */
  lemma SinterOfServer(servers: Servers, socketOf: Key -> int, keys: seq<Key>, per: map<int, ConnectionKeys>,
                       socket: int)
    requires Filed(per, keys, socketOf, |keys|) && socket in per
    ensures per[socket].keys != []
    ensures forall x :: x in AnswerSinter(servers, socket, per[socket].keys) <==>
              forall k :: k in keys && socketOf(k) == socket ==> x in SetOf(servers, socketOf, k)
  {
    hide AnswerSinter;
    KeysOfServer(keys, socketOf, per, socket);
    forall x {
      SinterMembers(servers, socket, per[socket].keys, x);
    }
  }

  lemma KeysOfServer(keys: seq<Key>, socketOf: Key -> int, per: map<int, ConnectionKeys>, socket: int)
    requires Filed(per, keys, socketOf, |keys|) && socket in per
    ensures forall k :: k in per[socket].keys <==> k in keys && socketOf(k) == socket
  {
    forall k | k in keys && socketOf(k) == socket ensures k in per[socket].keys {
      var i :| 0 <= i < |keys| && keys[i] == k;
      var j :| 0 <= j < |per[socket].indices| && per[socket].indices[j] == i;
      assert per[socket].keys[j] == k;
    }
  }

  /** The one socket of all keys, or -1 if they live on several. */
  method SocketOfAll(socketOf: Key -> int, keys: seq<Key>) returns (socket: int)
    requires keys != [] && forall k :: k in keys ==> socketOf(k) >= 0
    ensures -1 <= socket && (socket >= 0 ==> forall k :: k in keys ==> socketOf(k) == socket)
    ensures socket < 0 <==> exists i, j :: 0 <= i < |keys| && 0 <= j < |keys| && socketOf(keys[i]) != socketOf(keys[j])
  {
    socket := -1;
    for i := 0 to |keys|
      invariant i > 0 ==> socket >= 0 && forall j :: 0 <= j < i ==> socketOf(keys[j]) == socket
    {
      var current := socketOf(keys[i]);
      if i > 0 && socket != current {
        assert socketOf(keys[0]) != socketOf(keys[i]);
        return -1;
      }
      socket := current;
    }
  }

  /**
   The union of the sets of all keys, added to the caller's set.  The size
   returned is that of the caller's set or that of the answer, depending on
   whether the keys live on several servers; from an empty set they agree.
   */
  method Sunion(servers: Servers, socketOf: Key -> int, keys: seq<Key>, given: set<Bytes>)
    returns (out: set<Bytes>, size: nat)
    requires keys != [] && forall k :: k in keys ==> socketOf(k) >= 0
    ensures forall x :: x in out <==> x in given || exists k :: k in keys && x in SetOf(servers, socketOf, k)
    ensures (exists i, j :: 0 <= i < |keys| && 0 <= j < |keys| && socketOf(keys[i]) != socketOf(keys[j])) ==>
            size == |out|
    ensures (forall k :: k in keys ==> socketOf(k) == socketOf(keys[0])) ==>
              size == |AnswerSunion(servers, socketOf(keys[0]), keys)|
    ensures (forall k :: k in keys ==> socketOf(k) == socketOf(keys[0])) ==>
              (size == |out| <==> given <= AnswerSunion(servers, socketOf(keys[0]), keys))
    ensures given == {} ==> size == |out|
  {
    hide AnswerSunion;
    var socket := SocketOfAll(socketOf, keys);
    if socket == -1 {
      out := given;
      var per := FileKeys(keys, socketOf);
      var rest: set<int> := per.Keys;
      while rest != {}
        invariant rest <= per.Keys
        invariant forall x :: x in out <==>
                    (x in given || exists k :: k in keys && socketOf(k) !in rest && x in SetOf(servers, socketOf, k))
        decreases rest
      {
        SomeMember(rest);
        var s :| s in rest;
        SunionOfServer(servers, socketOf, keys, per, s);
        out := out + AnswerSunion(servers, s, per[s].keys);
        rest := rest - {s};
      }
      return out, |out|;
    }
    var answer := AnswerSunion(servers, socket, keys);
    SunionOfOne(servers, socketOf, keys, socket);
    out := given + answer;
    size := |answer|;
    SizeOfUnion(given, answer);
  }

  lemma SizeOfUnion(a: set<Bytes>, b: set<Bytes>)
    ensures |a + b| == |b| <==> a <= b
  {
    assert a + b == b + (a - b) && b !! a - b;
    assert |a + b| == |b| + |a - b|;
    assert a - b == {} <==> a <= b;
  }

  /** With all keys on one server and none of them stored, a caller's set of one member is said to have none. */
  lemma SunionSizeDiffers(servers: Servers, socketOf: Key -> int, key: Key, x: Bytes)
    requires servers.sets(socketOf(key), key) == {}
    ensures var answer := AnswerSunion(servers, socketOf(key), [key]);
            |answer| == 0 && |{x} + answer| == 1
  {
    assert [key][1..] == [];
    assert {x} + AnswerSunion(servers, socketOf(key), [key]) == {x};
  }

  lemma SunionOfOne(servers: Servers, socketOf: Key -> int, keys: seq<Key>, socket: int)
    requires forall k :: k in keys ==> socketOf(k) == socket
    ensures forall x :: x in AnswerSunion(servers, socket, keys) <==>
              exists k :: k in keys && x in SetOf(servers, socketOf, k)
  {
    hide AnswerSunion;
    forall x {
      SunionMembers(servers, socket, keys, x);
    }
  }

  lemma SunionOfServer(servers: Servers, socketOf: Key -> int, keys: seq<Key>, per: map<int, ConnectionKeys>,
                       socket: int)
    requires Filed(per, keys, socketOf, |keys|) && socket in per
    ensures forall x :: x in AnswerSunion(servers, socket, per[socket].keys) <==>
              exists k :: k in keys && socketOf(k) == socket && x in SetOf(servers, socketOf, k)
  {
    hide AnswerSunion;
    KeysOfServer(keys, socketOf, per, socket);
    forall x {
      SunionMembers(servers, socket, per[socket].keys, x);
    }
  }
}
