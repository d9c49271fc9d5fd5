/**
 * What `onCommand` does, stated apart from its branch structure: the
 * resolver walks down the tree as far as the arguments lead (matching the
 * token at index 1 at every level), the permission gate is checked at
 * every node on that path in order, and the node where the walk stops
 * handles what is left of the arguments.
 */
module DispatchProperties {
  import opened Wrappers
  import opened Commands

  /** The nodes entered, root first, and the arguments the last one receives. */
  datatype Walked = Walked(path: seq<Command>, rest: seq<string>)

  /**
   * Each node on `path` after the first is the first child of its
   * predecessor that the token at index 1 of the predecessor's arguments
   * names; each level passes on its arguments without their first element.
   */
  ghost predicate Follows(path: seq<Command>, args: seq<string>)
    reads set n | n in path
    decreases |path|
  {
    |path| <= 1 ||
    (|args| >= 2 && path[1] == FirstMatch(path[0].subCommands, args[1], true) && Follows(path[1..], args[1..]))
  }

  /** The resolver: permissions play no part in it. */
  ghost function Walk(node: Command, args: seq<string>, nodes: set<Command>): (w: Walked)
    requires node in nodes && Closed(nodes)
    reads nodes
    ensures |w.path| >= 1 && w.path[0] == node
    ensures forall n :: n in w.path ==> n in nodes
    ensures |w.path| - 1 <= |args| && w.rest == args[|w.path| - 1..]
    ensures Follows(w.path, args)
    ensures |w.rest| >= 2 ==> FirstMatch(w.path[|w.path| - 1].subCommands, w.rest[1], true) == null
    decreases |args|
  {
    if |args| < 2 then Walked([node], args)
    else
      var sub := FirstMatch(node.subCommands, args[1], true);
      if sub == null then Walked([node], args)
      else
        var w := Walk(sub, args[1..], nodes);
        var r := Walked([node] + w.path, w.rest);
        assert r.path[1..] == w.path;
        assert args[1..][|w.path| - 1..] == args[|w.path|..];
        r
  }

  /** The node where the walk stops. */
  function Last(path: seq<Command>): Command
    requires path != []
  {
    path[|path| - 1]
  }

  /** What the terminal node does with the arguments left to it. */
  function Handle(node: Command, sender: Sender, rest: seq<string>): Run {
    if |rest| == 0 then Run(BothHandlers(node, sender), Returned(true))
    else if |rest| == 1 then Run([], Threw(IndexOneOutOfBounds))
    else Run(OneHandler(node, sender, rest), Returned(true))
  }

  /** The permission gate of every node on `path`, in order, before `onward`. */
  function Gate(path: seq<Command>, sender: Sender, onward: Run): Run {
    if path == [] then onward
    else if !path[0].HasPermission(sender) then Denied(path[0])
    else Gate(path[1..], sender, onward)
  }

  /** `path[k]` is the first node on `path` whose permission the sender lacks. */
  predicate FirstDeniedAt(path: seq<Command>, sender: Sender, k: int) {
    0 <= k < |path| && !path[k].HasPermission(sender)
    && forall m :: 0 <= m < k ==> path[m].HasPermission(sender)
  }

  /** The gate lets `onward` through when every node admits the sender. */
  lemma {:induction false} GatePermitted(path: seq<Command>, sender: Sender, onward: Run)
    requires forall k :: 0 <= k < |path| ==> path[k].HasPermission(sender)
    ensures Gate(path, sender, onward) == onward
    decreases |path|
  {
    if path != [] {
      GatePermitted(path[1..], sender, onward);
    }
  }

  /** Otherwise the first node that refuses the sender answers alone. */
  lemma {:induction false} GateDenied(path: seq<Command>, sender: Sender, onward: Run, k: int)
    requires FirstDeniedAt(path, sender, k)
    ensures Gate(path, sender, onward) == Denied(path[k])
    decreases |path|
  {
    if k > 0 {
      assert FirstDeniedAt(path[1..], sender, k - 1);
      GateDenied(path[1..], sender, onward, k - 1);
    }
  }

  /** Dispatch is the gate along the walk, then the terminal node's handling. */
  lemma {:induction false} DispatchIsGatedWalk(node: Command, sender: Sender, args: seq<string>, nodes: set<Command>)
    requires node in nodes && Closed(nodes)
    ensures var w := Walk(node, args, nodes);
      Dispatch(node, sender, args, nodes) == Gate(w.path, sender, Handle(Last(w.path), sender, w.rest))
    decreases |args|
  {
    var w := Walk(node, args, nodes);
    if !node.HasPermission(sender) {
      assert Dispatch(node, sender, args, nodes) == Denied(node);
    } else if |args| < 2 || FirstMatch(node.subCommands, args[1], true) == null {
      assert w == Walked([node], args);
      assert Gate(w.path, sender, Handle(node, sender, args)) == Gate([], sender, Handle(node, sender, args));
    } else {
      var sub := FirstMatch(node.subCommands, args[1], true);
      DispatchIsGatedWalk(sub, sender, args[1..], nodes);
      GatedWalkStep(node, sub, sender, args, nodes);
    }
  }

  /** One level of the walk: a permitted node with a matching child passes the gate on to it. */
  lemma GatedWalkStep(node: Command, sub: Command, sender: Sender, args: seq<string>, nodes: set<Command>)
    requires node in nodes && Closed(nodes) && node.HasPermission(sender)
    requires |args| >= 2 && sub == FirstMatch(node.subCommands, args[1], true)
    ensures sub in nodes
    ensures var w := Walk(node, args, nodes);
      var inner := Walk(sub, args[1..], nodes);
      Gate(w.path, sender, Handle(Last(w.path), sender, w.rest))
        == Gate(inner.path, sender, Handle(Last(inner.path), sender, inner.rest))
  {
    var w := Walk(node, args, nodes);
    var inner := Walk(sub, args[1..], nodes);
    assert w.path == [node] + inner.path;
    assert w.path[1..] == inner.path;
    assert w.rest == inner.rest;
    assert Last(w.path) == Last(inner.path);
  }

  /**
   * Whatever the handlers do, `onCommand` throws only when the walk ends,
   * every node on it admitting the sender, with exactly one argument left;
   * then nothing at all has been sent.
   */
  lemma ThrowsOnlyOnOneArgument(node: Command, sender: Sender, args: seq<string>, nodes: set<Command>)
    requires node in nodes && Closed(nodes)
    ensures var w := Walk(node, args, nodes);
      Dispatch(node, sender, args, nodes).completion.Threw? <==>
        (forall k :: 0 <= k < |w.path| ==> w.path[k].HasPermission(sender)) && |w.rest| == 1
  {
    var w := Walk(node, args, nodes);
    DispatchIsGatedWalk(node, sender, args, nodes);
    var h := Handle(Last(w.path), sender, w.rest);
    if forall k :: 0 <= k < |w.path| ==> w.path[k].HasPermission(sender) {
      GatePermitted(w.path, sender, h);
    } else {
      var k := FirstDenied(w.path, sender);
      GateDenied(w.path, sender, h, k);
    }
  }

  /** The index of the first node on `path` that refuses the sender. */
  function FirstDenied(path: seq<Command>, sender: Sender): (k: int)
    requires exists k :: 0 <= k < |path| && !path[k].HasPermission(sender)
    ensures FirstDeniedAt(path, sender, k)
    decreases |path|
  {
    if !path[0].HasPermission(sender) then 0
    else
      assert exists k :: 0 <= k < |path[1..]| && !path[1..][k].HasPermission(sender) by {
        var k :| 0 <= k < |path| && !path[k].HasPermission(sender);
        assert path[1..][k - 1] == path[k];
      }
      1 + FirstDenied(path[1..], sender)
  }

  /**
   * The gate at every node on the path: if some node the walk enters
   * refuses the sender, the first such node sends its no-permission
   * message, which is the one event, and no handler runs.
   */
  lemma DeniedOnPath(node: Command, sender: Sender, args: seq<string>, nodes: set<Command>, k: int)
    requires node in nodes && Closed(nodes)
    requires FirstDeniedAt(Walk(node, args, nodes).path, sender, k)
    ensures var w := Walk(node, args, nodes);
      Dispatch(node, sender, args, nodes) == Run([Msg(Colorized(w.path[k].noPermissionMessage))], Returned(true))
    ensures Invocations(Dispatch(node, sender, args, nodes).events) == []
  {
    var w := Walk(node, args, nodes);
    DispatchIsGatedWalk(node, sender, args, nodes);
    GateDenied(w.path, sender, Handle(Last(w.path), sender, w.rest), k);
  }

  /** If every node on the path admits the sender, the terminal node handles the rest. */
  lemma PermittedPath(node: Command, sender: Sender, args: seq<string>, nodes: set<Command>)
    requires node in nodes && Closed(nodes)
    requires var w := Walk(node, args, nodes); forall k :: 0 <= k < |w.path| ==> w.path[k].HasPermission(sender)
    ensures var w := Walk(node, args, nodes);
      Dispatch(node, sender, args, nodes) == Handle(Last(w.path), sender, w.rest)
  {
    var w := Walk(node, args, nodes);
    DispatchIsGatedWalk(node, sender, args, nodes);
    GatePermitted(w.path, sender, Handle(Last(w.path), sender, w.rest));
  }

  // ---------------------------------------------------------------------
  // Handler invocations

  /** The handler invocations among `events`, in order. */
  function Invocations(events: seq<Event>): seq<Event> {
    if events == [] then []
    else (if events[0].Msg? then [] else [events[0]]) + Invocations(events[1..])
  }

  lemma {:induction false} InvocationsAppend(a: seq<Event>, b: seq<Event>)
    ensures Invocations(a + b) == Invocations(a) + Invocations(b)
    decreases |a|
  {
    if a == [] {
      assert a + b == b;
    } else {
      assert (a + b)[0] == a[0];
      assert (a + b)[1..] == a[1..] + b;
      InvocationsAppend(a[1..], b);
    }
  }

  lemma {:induction false} InvocationsOfMsgs(texts: seq<Text>)
    ensures Invocations(Msgs(texts)) == []
    decreases |texts|
  {
    if texts != [] {
      assert Msgs(texts)[1..] == Msgs(texts[1..]);
      InvocationsOfMsgs(texts[1..]);
    }
  }

  /** `execute` invokes the handler exactly once; everything else it adds is a message. */
  lemma ExecuteInvokesOnce(call: Event, reaction: Reaction)
    requires !call.Msg?
    ensures Invocations(ExecuteEvents(call, reaction)) == [call]
  {
    var tail := match reaction.thrown
      case None => []
      case Some(f) => [Msg(Red(FailureNotice)), Msg(Red(FaultLine(f)))];
    assert ExecuteEvents(call, reaction) == [call] + (Msgs(reaction.sent) + tail);
    InvocationsAppend([call], Msgs(reaction.sent) + tail);
    InvocationsAppend(Msgs(reaction.sent), tail);
    InvocationsOfMsgs(reaction.sent);
    if reaction.thrown.Some? {
      assert tail[1..][1..] == [];
    }
    assert Invocations(tail) == [];
  }

  /**
   * Empty arguments: exactly two invocations, both with an empty list,
   * the generic handler and then the player handler for a player or the
   * generic handler again otherwise.
   */
  lemma EmptyArgsInvokesTwice(node: Command, sender: Sender, nodes: set<Command>)
    requires node in nodes && Closed(nodes) && node.HasPermission(sender)
    ensures Dispatch(node, sender, [], nodes).completion == Returned(true)
    ensures Invocations(Dispatch(node, sender, [], nodes).events) ==
      [InvokeGeneric(node, []), if sender.isPlayer then InvokePlayer(node, []) else InvokeGeneric(node, [])]
  {
    var first := ExecuteEvents(InvokeGeneric(node, []), node.handlers.generic([]));
    var second := if sender.isPlayer then ExecuteEvents(InvokePlayer(node, []), node.handlers.player([]))
                  else ExecuteEvents(InvokeGeneric(node, []), node.handlers.generic([]));
    InvocationsAppend(first, second);
    ExecuteInvokesOnce(InvokeGeneric(node, []), node.handlers.generic([]));
    if sender.isPlayer {
      ExecuteInvokesOnce(InvokePlayer(node, []), node.handlers.player([]));
    }
  }

  /** No child matches `args[1]`: exactly one invocation, of the sender's kind, with all of `args`. */
  lemma UnmatchedInvokesOnce(node: Command, sender: Sender, args: seq<string>, nodes: set<Command>)
    requires node in nodes && Closed(nodes) && node.HasPermission(sender)
    requires |args| >= 2 && FirstMatch(node.subCommands, args[1], true) == null
    ensures Dispatch(node, sender, args, nodes).completion == Returned(true)
    ensures Invocations(Dispatch(node, sender, args, nodes).events) ==
      [if sender.isPlayer then InvokePlayer(node, args) else InvokeGeneric(node, args)]
  {
    if sender.isPlayer {
      ExecuteInvokesOnce(InvokePlayer(node, args), node.handlers.player(args));
    } else {
      ExecuteInvokesOnce(InvokeGeneric(node, args), node.handlers.generic(args));
    }
  }

  /** A matching child handles the strictly shorter `args[1..]`, and its run is the whole run. */
  lemma MatchedRecurses(node: Command, sender: Sender, args: seq<string>, nodes: set<Command>)
    requires node in nodes && Closed(nodes) && node.HasPermission(sender)
    requires |args| >= 2 && FirstMatch(node.subCommands, args[1], true) != null
    ensures var sub := FirstMatch(node.subCommands, args[1], true);
      sub in nodes && |args[1..]| < |args| &&
      Dispatch(node, sender, args, nodes) == Dispatch(sub, sender, args[1..], nodes)
  {
  }

  /**
   * KCommand's default handlers with empty arguments: a console sender
   * sees two silent invocations; a player sees the generic one, the player
   * one, and one message "Console only command.".
   */
  lemma DefaultHandlersEmptyArgs(node: Command, sender: Sender, nodes: set<Command>)
    requires node in nodes && Closed(nodes) && node.HasPermission(sender)
    requires node.handlers == DefaultHandlers()
    ensures !sender.isPlayer ==>
      Dispatch(node, sender, [], nodes).events == [InvokeGeneric(node, []), InvokeGeneric(node, [])]
    ensures sender.isPlayer ==>
      Dispatch(node, sender, [], nodes).events == [InvokeGeneric(node, []), InvokePlayer(node, []), Msg(Red(ConsoleOnly))]
  {
    assert Msgs([]) == [];
    assert Msgs([Red(ConsoleOnly)]) == [Msg(Red(ConsoleOnly))];
  }
}
