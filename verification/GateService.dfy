/**
 The gate's connection table and the user-to-connection map used to push messages.
 */
module Gate {

  datatype Connection = Connection(connId: string, userId: string, token: string, authenticated: bool)

  datatype State = State(connections: map<string, Connection>, userToConn: map<string, string>)

  const EMPTY := State(map[], map[])

  /** The hash map decides which of several matching connections `UnbindUser` meets first;
      `met` names it. */
  datatype Op =
    | AddConnection(connId: string)
    | RemoveConnection(connId: string)
    | BindUser(connId: string, userId: string, token: string)
    | UnbindUser(userId: string, met: string)

  predicate Carries(s: State, c: string, u: string) {
    c in s.connections && s.connections[c].userId == u
  }

  function Apply(s: State, op: Op): State {
    match op
    case AddConnection(c) => s.(connections := s.connections[c := Connection(c, "", "", false)])
    case RemoveConnection(c) =>
      if c !in s.connections then s
      else
        var u := s.connections[c].userId;
        State(s.connections - {c}, if u == "" then s.userToConn else s.userToConn - {u})
    case BindUser(c, u, token) =>
      if c !in s.connections then s
      else
        var before := s.connections[c].userId;
        State(s.connections[c := s.connections[c].(userId := u, token := token, authenticated := true)],
              (if before == "" then s.userToConn else s.userToConn - {before})[u := c])
    case UnbindUser(u, met) =>
      State(if Carries(s, met, u) then s.connections[met := s.connections[met].(userId := "", authenticated := false)]
            else s.connections,
            s.userToConn - {u})
  }

  /** `UnbindUser` passes over no matching connection. */
  ghost predicate Possible(s: State, op: Op) {
    op.UnbindUser? ==> (Carries(s, op.met, op.userId) || forall c :: !Carries(s, c, op.userId))
  }

  /** A user is found after an operation when bound by it, or found before and not unbound, and not the named
      user of a connection that goes or is bound anew; the binding takes the user to its own connection. */
  lemma EntryExact(s: State, op: Op, u: string)
    ensures
      var s' := Apply(s, op);
      var acts := op.BindUser? && op.connId in s.connections;
      var leaves := (op.RemoveConnection? || op.BindUser?) && Carries(s, op.connId, u) && u != "";
      && (u in s'.userToConn <==>
            (acts && op.userId == u)
            || (u in s.userToConn && !leaves && !(op.UnbindUser? && op.userId == u)))
      && (u in s'.userToConn ==> s'.userToConn[u] == if acts && op.userId == u then op.connId else s.userToConn[u])
  {
  }

  /** A new connection carries nobody; binding writes user and token and marks it authenticated; unbinding
      clears user and mark of the one connection met; nothing else changes a connection. */
  lemma ConnectionExact(s: State, op: Op, c: string)
    ensures
      var s' := Apply(s, op);
      && (c in s'.connections <==> (c in s.connections && op != RemoveConnection(c)) || op == AddConnection(c))
      && (c in s'.connections ==>
            s'.connections[c]
            == if op.AddConnection? && op.connId == c then Connection(c, "", "", false)
               else
                 var before := s.connections[c];
                 if op.BindUser? && op.connId == c then Connection(before.connId, op.userId, op.token, true)
                 else if op.UnbindUser? && op.met == c && before.userId == op.userId
                   then Connection(before.connId, "", before.token, false)
                 else before)
  {
  }

  /** Every entry of the map names a live connection carrying that user. */
  ghost predicate Live(s: State) {
    forall u :: u in s.userToConn ==> Carries(s, s.userToConn[u], u)
  }

  /** The map leads to the connection. */
  predicate Routed(s: State, c: string) {
    c in s.connections && s.connections[c].userId in s.userToConn && s.userToConn[s.connections[c].userId] == c
  }

  /** A routed id is added again, or a connection routed for the user without a name is removed
      or bound to somebody. */
  predicate Dangles(s: State, op: Op) {
    match op
    case AddConnection(c) => Routed(s, c) && s.connections[c].userId != ""
    case RemoveConnection(c) => Routed(s, c) && s.connections[c].userId == ""
    case BindUser(c, u, _) => Routed(s, c) && s.connections[c].userId == "" && u != ""
    case UnbindUser(_, _) => false
  }

  /** An operation leaves an entry on a dead or foreign connection if and only if it dangles. */
  lemma LiveExact(s: State, op: Op)
    requires Live(s) && Possible(s, op)
    ensures Live(Apply(s, op)) <==> !Dangles(s, op)
  {
    if Dangles(s, op) {
      var u := s.connections[op.connId].userId;
      assert u in Apply(s, op).userToConn && !Carries(Apply(s, op), Apply(s, op).userToConn[u], u);
    }
  }

  /** Live, and without an entry for the user without a name: what runs keep. */
  ghost predicate Sound(s: State) {
    "" !in s.userToConn && Live(s)
  }

  /** A new connection's id is not in use, and only a named user is bound. */
  predicate Proper(s: State, op: Op) {
    && (op.AddConnection? ==> !Routed(s, op.connId))
    && (op.BindUser? && op.connId in s.connections ==> op.userId != "")
  }

  /** Exactly the proper operations keep the map live and free of an unnamed entry. */
  lemma SoundExact(s: State, op: Op)
    requires Sound(s) && Possible(s, op)
    ensures Sound(Apply(s, op)) <==> Proper(s, op)
  {
    LiveExact(s, op);
    if op.AddConnection? && Routed(s, op.connId) { assert s.connections[op.connId].userId != ""; }
  }

  lemma RunOfThree(s: State, first: Op, second: Op, third: Op)
    ensures Run(s, [first, second, third]) == Apply(Apply(Apply(s, first), second), third)
  {
    RunFirst(s, first, [second, third]);
    RunFirst(Apply(s, first), second, [third]);
    RunFirst(Apply(Apply(s, first), second), third, []);
    assert [first] + [second, third] == [first, second, third] && [second] + [third] == [second, third];
    assert [third] + [] == [third];
  }

  lemma RunFirst(s: State, op: Op, ops: seq<Op>)
    ensures Run(s, [op] + ops) == Run(Apply(s, op), ops)
  {
    assert ([op] + ops)[1..] == ops;
  }

  /** Binding no name is harmless at first; the connection's removal then leaves the entry behind. */
  lemma UnnamedEntryDangles(c: string)
    ensures
      var s := Apply(Apply(EMPTY, AddConnection(c)), BindUser(c, "", ""));
      var t := Run(EMPTY, [AddConnection(c), BindUser(c, "", ""), RemoveConnection(c)]);
      Live(s) && "" in t.userToConn && t.userToConn[""] == c && c !in t.connections
  {
    RunOfThree(EMPTY, AddConnection(c), BindUser(c, "", ""), RemoveConnection(c));
  }

  /** A connection id used again takes the user's entry to a connection that is not theirs. */
  lemma ReusedIdDangles(c: string, u: string)
    requires u != ""
    ensures
      var t := Run(EMPTY, [AddConnection(c), BindUser(c, u, ""), AddConnection(c)]);
      u in t.userToConn && t.userToConn[u] == c && !Carries(t, c, u)
  {
    RunOfThree(EMPTY, AddConnection(c), BindUser(c, u, ""), AddConnection(c));
  }

  ghost predicate ProperRun(s: State, ops: seq<Op>)
    decreases |ops|
  {
    ops == [] || (Possible(s, ops[0]) && Proper(s, ops[0]) && ProperRun(Apply(s, ops[0]), ops[1..]))
  }

  function Run(s: State, ops: seq<Op>): State
    decreases |ops|
  {
    if ops == [] then s else Run(Apply(s, ops[0]), ops[1..])
  }

  lemma {:induction false} RunKeepsSound(s: State, ops: seq<Op>)
    requires Sound(s) && ProperRun(s, ops)
    ensures Sound(Run(s, ops))
    decreases |ops|
  {
    if ops != [] {
      SoundExact(s, ops[0]);
      RunKeepsSound(Apply(s, ops[0]), ops[1..]);
    }
  }

  /** The map also finds every bound connection. */
  ghost predicate Complete(s: State) {
    forall c :: c in s.connections && s.connections[c].userId != "" ==>
      s.connections[c].userId in s.userToConn && s.userToConn[s.connections[c].userId] == c
  }

  predicate BoundElsewhere(s: State, op: Op)
    requires op.BindUser?
  {
    op.userId in s.userToConn && s.userToConn[op.userId] != op.connId
  }

  /** Completeness is lost exactly by binding a user who is bound on another connection. */
  lemma CompleteExact(s: State, op: Op)
    requires Sound(s) && Complete(s) && Possible(s, op) && Proper(s, op)
    ensures Complete(Apply(s, op)) <==> !(op.BindUser? && op.connId in s.connections && BoundElsewhere(s, op))
  {
    var s' := Apply(s, op);
    if op.BindUser? && op.connId in s.connections && BoundElsewhere(s, op) {
      var c := s.userToConn[op.userId];
      assert Carries(s, c, op.userId) && Carries(s', c, op.userId);
    }
  }

  /** After a second login, closing the first connection hides the live second one. */
  lemma SecondLoginHidden()
    ensures
      var ops := [AddConnection("c1"), AddConnection("c2"), BindUser("c1", "u", ""), BindUser("c2", "u", ""),
                  RemoveConnection("c1")];
      var s := Run(EMPTY, ops);
      Carries(s, "c2", "u") && "u" !in s.userToConn
  {
    var s1 := Apply(EMPTY, AddConnection("c1"));
    var s2 := Apply(s1, AddConnection("c2"));
    var s3 := Apply(s2, BindUser("c1", "u", ""));
    var s4 := Apply(s3, BindUser("c2", "u", ""));
    var s5 := Apply(s4, RemoveConnection("c1"));
    var ops := [AddConnection("c1"), AddConnection("c2"), BindUser("c1", "u", ""), BindUser("c2", "u", ""),
                RemoveConnection("c1")];
    assert "c1" != "c2" by { assert "c1"[1] != "c2"[1]; }
    assert Run(EMPTY, ops) == Run(s1, ops[1..]) == Run(s2, ops[1..][1..]) == Run(s3, ops[1..][1..][1..])
        == Run(s4, ops[1..][1..][1..][1..]) == Run(s5, ops[1..][1..][1..][1..][1..]) == s5;
  }

  class GateService {
    var connections: map<string, Connection>
    var userToConn: map<string, string>

    function Maps(): State
      reads this
    {
      State(connections, userToConn)
    }

    ghost predicate Valid()
      reads this
    {
      Sound(Maps())
    }

    constructor ()
      ensures Valid() && Maps() == EMPTY
    {
      connections, userToConn := map[], map[];
    }

    method AddConnection(connId: string)
      requires Valid()
      modifies this
      ensures Maps() == Apply(old(Maps()), Op.AddConnection(connId))
      ensures Valid() <==> !Routed(old(Maps()), connId)
    {
      SoundExact(Maps(), Op.AddConnection(connId));
      connections := connections[connId := Connection(connId, "", "", false)];
    }

    method RemoveConnection(connId: string)
      requires Valid()
      modifies this
      ensures Valid() && Maps() == Apply(old(Maps()), Op.RemoveConnection(connId))
    {
      SoundExact(Maps(), Op.RemoveConnection(connId));
      if connId in connections {
        var userId := connections[connId].userId;
        if userId != "" { userToConn := userToConn - {userId}; }
        connections := connections - {connId};
      }
    }

    method BindUser(connId: string, userId: string, token: string) returns (ok: bool)
      requires Valid()
      modifies this
      ensures ok == (connId in old(connections)) && (Valid() <==> (ok ==> userId != ""))
      ensures Maps() == Apply(old(Maps()), Op.BindUser(connId, userId, token))
    {
      SoundExact(Maps(), Op.BindUser(connId, userId, token));
      if connId !in connections { return false; }
      var c := connections[connId];
      if c.userId != "" { userToConn := userToConn - {c.userId}; }
      connections := connections[connId := c.(userId := userId, token := token, authenticated := true)];
      userToConn := userToConn[userId := connId];
      return true;
    }

    /** Clears the first connection met that carries the user. */
    method UnbindUser(userId: string) returns (ghost met: string)
      requires Valid()
      modifies this
      ensures Valid() && Possible(old(Maps()), Op.UnbindUser(userId, met))
      ensures Maps() == Apply(old(Maps()), Op.UnbindUser(userId, met))
    {
      ghost var s := Maps();
      met := "";
      userToConn := userToConn - {userId};
      var left := connections.Keys;
      while left != {}
        invariant connections == s.connections && userToConn == s.userToConn - {userId}
        invariant left <= connections.Keys
        invariant forall c :: c in connections && c !in left ==> !Carries(s, c, userId)
      {
        var c :| c in left;
        if connections[c].userId == userId {
          met := c;
          SoundExact(s, Op.UnbindUser(userId, met));
          connections := connections[c := connections[c].(userId := "", authenticated := false)];
          return;
        }
        left := left - {c};
      }
      SoundExact(s, Op.UnbindUser(userId, met));
    }

    /** Never a dead or foreign connection. */
    method GetConnIdByUser(userId: string) returns (connId: string)
      requires Valid()
      ensures userId in userToConn ==> connId in connections && connections[connId].userId == userId
      ensures userId !in userToConn ==> connId == ""
    {
      if userId in userToConn {
        assert Carries(Maps(), userToConn[userId], userId);
        return userToConn[userId];
      }
      return "";
    }
  }
}
