/**
 * A command tree node with a recursive dispatcher. BukkitCommand and
 * KCommand carry the same tree-building, lookup and dispatch logic; one
 * class, `Command`, models both.
 *
 * Handler bodies are written by plugin authors and are not visible, so a
 * node carries them as data: for every argument list, the messages the
 * handler sends and whether it throws. The sender is abstract: whether it
 * is a player, the permissions it holds, and a trace of everything that
 * happens to it during a dispatch (messages it receives, handler
 * invocations made on its behalf).
 */
module Commands {
  import opened Wrappers
  import opened JavaText

  /** Chat text as it reaches the sender. */
  datatype Text =
    | Plain(s: string)       // sent as is by a handler body
    | Red(s: string)         // ChatColor.RED followed by s
    | Colorized(s: string)   // colorize(s); its colour-code translation is not modelled

  const FailureNotice: string := "An error occurred while execute command."
  const ConsoleOnly: string := "Console only command."

  /** A thrown Throwable: its class name and its message. */
  datatype Fault = Fault(className: string, message: string)

  /** The second diagnostic line `execute` sends: "%s: %s" of class name and message. */
  function FaultLine(f: Fault): string {
    f.className + ": " + f.message
  }

  /** Reading `args[1]` of a one-element array. */
  const IndexOneOutOfBounds: Fault :=
    Fault("java.lang.ArrayIndexOutOfBoundsException", "Index 1 out of bounds for length 1")

  /** What one run of a handler body does: the messages it sends, then whether it throws. */
  datatype Reaction = Reaction(sent: seq<Text>, thrown: Option<Fault>)

  /** The two `onCommand` overloads a concrete command supplies. */
  datatype Handlers = Handlers(generic: seq<string> -> Reaction, player: seq<string> -> Reaction)

  /** KCommand's defaults: the generic handler does nothing, the player handler refuses. */
  function DefaultHandlers(): (h: Handlers)
    ensures forall args :: h.generic(args) == Reaction([], None)
    ensures forall args :: h.player(args) == Reaction([Red(ConsoleOnly)], None)
  {
    Handlers(args => Reaction([], None), args => Reaction([Red(ConsoleOnly)], None))
  }

  /** What the sender observes. */
  datatype Event =
    | Msg(text: Text)
    | InvokeGeneric(node: Command, args: seq<string>)
    | InvokePlayer(node: Command, args: seq<string>)

  /** The IllegalAccessException `addSubCommand` throws, by cause. */
  datatype Clash = DuplicateName(name: string) | DuplicateAlias(alias: string)

  /** How `onCommand` ends: it returns a boolean or throws. */
  datatype Completion = Returned(value: bool) | Threw(fault: Fault)

  /** The events of one dispatch and how it ends. */
  datatype Run = Run(events: seq<Event>, completion: Completion)

  class Sender {
    const isPlayer: bool
    const permissions: set<string>
    var trace: seq<Event>

    constructor (isPlayer: bool, permissions: set<string>)
      ensures this.isPlayer == isPlayer && this.permissions == permissions
      ensures trace == []
    {
      this.isPlayer := isPlayer;
      this.permissions := permissions;
      trace := [];
    }

    /** `sendMessage`. */
    method SendMessage(text: Text)
      modifies this
      ensures trace == old(trace) + [Msg(text)]
    {
      trace := trace + [Msg(text)];
    }

    /** Records events that happen on this sender's behalf (a handler run). */
    method Observe(events: seq<Event>)
      modifies this
      ensures trace == old(trace) + events
    {
      trace := trace + events;
    }
  }

  class Command {
    const name: string
    const parent: Command?
    const alias: seq<string>
    const permission: string
    const description: string
    const usage: string
    /** What the abstract `getNoPermissionMessage` returns for this command. */
    const noPermissionMessage: string
    /** The `onCommand(CommandSender, List)` and `onCommand(Player, List)` bodies. */
    const handlers: Handlers
    var subCommands: seq<Command>

    /** The full constructor; the shorter overloads pass `None` for what they omit. */
    constructor (name: string, parent: Command?, alias: Option<seq<string>>, permission: Option<string>,
                 description: Option<string>, usage: Option<string>,
                 noPermissionMessage: string, handlers: Handlers)
      ensures this.name == name && this.parent == parent
      ensures alias.None? ==> this.alias == []
      ensures alias.Some? ==> this.alias == alias.value
      ensures permission.None? ==> this.permission == ""
      ensures permission.Some? ==> this.permission == permission.value
      ensures description.None? ==> this.description == ""
      ensures description.Some? ==> this.description == description.value
      ensures usage.None? ==> this.usage == ""
      ensures usage.Some? ==> this.usage == usage.value
      ensures this.noPermissionMessage == noPermissionMessage && this.handlers == handlers
      ensures subCommands == []
    {
      this.parent := parent;
      this.subCommands := [];
      this.name := name;
      this.alias := if alias.Some? then alias.value else [];
      this.permission := if permission.Some? then permission.value else "";
      this.description := if description.Some? then description.value else "";
      this.usage := if usage.Some? then usage.value else "";
      this.noPermissionMessage := noPermissionMessage;
      this.handlers := handlers;
    }

    /** `getNameAndAlias`: the aliases in order, then the name. */
    method GetNameAndAlias() returns (r: seq<string>)
      ensures |r| == |alias| + 1
      ensures r[..|alias|] == alias && r[|alias|] == name
    {
      r := alias;
      r := r + [name];
    }

    /** `hasPermission`: a command without a permission is open to everyone. */
    function HasPermission(sender: Sender): (r: bool)
      ensures permission == [] ==> r
      ensures permission != [] ==> (r <==> permission in sender.permissions)
    {
      permission == [] || permission in sender.permissions
    }

    /**
     * `addSubCommand`: scans the children in order; for each, a name equal
     * ignoring case, or an alias of `sub` found verbatim among the child's
     * aliases, throws. Otherwise `sub` is appended and the receiver returned.
     */
    method AddSubCommand(sub: Command) returns (r: Result<Command, Clash>)
      modifies this
      ensures FirstClash(old(subCommands), sub).None? ==> r == Success(this) && subCommands == old(subCommands) + [sub]
      ensures FirstClash(old(subCommands), sub).Some? ==>
        r == Failure(FirstClash(old(subCommands), sub).value) && subCommands == old(subCommands)
      ensures GuardedSiblings(old(subCommands)) ==> GuardedSiblings(subCommands)
    {
      var i := 0;
      while i < |subCommands|
        invariant 0 <= i <= |subCommands|
        invariant subCommands == old(subCommands)
        invariant FirstClash(subCommands, sub) == FirstClash(subCommands[i..], sub)
      {
        var command := subCommands[i];
        assert subCommands[i..][1..] == subCommands[i + 1..];
        if EqualsIgnoreCase(command.name, sub.name) {
          return Failure(DuplicateName(command.name));
        }
        var j := 0;
        while j < |sub.alias|
          invariant 0 <= j <= |sub.alias|
          invariant FirstShared(sub.alias, command.alias) == FirstShared(sub.alias[j..], command.alias)
        {
          assert sub.alias[j..][1..] == sub.alias[j + 1..];
          if sub.alias[j] in command.alias {
            return Failure(DuplicateAlias(sub.alias[j]));
          }
          j := j + 1;
        }
        i := i + 1;
      }
      if GuardedSiblings(subCommands) {
        AdmitKeepsGuarded(subCommands, sub);
      }
      subCommands := subCommands + [sub];
      r := Success(this);
    }

    /**
     * `getSubCommand`: the first child, in insertion order, whose name
     * (or, when `checkAlias`, one of whose aliases) equals `token`
     * ignoring case; `null` if there is none.
     */
    method GetSubCommand(token: string, checkAlias: bool) returns (r: Command?)
      ensures r == FirstMatch(subCommands, token, checkAlias)
    {
      var i := 0;
      while i < |subCommands|
        invariant 0 <= i <= |subCommands|
        invariant FirstMatch(subCommands, token, checkAlias) == FirstMatch(subCommands[i..], token, checkAlias)
      {
        var sub := subCommands[i];
        assert subCommands[i..][1..] == subCommands[i + 1..];
        if EqualsIgnoreCase(sub.name, token) {
          return sub;
        }
        if checkAlias {
          var j := 0;
          while j < |sub.alias|
            invariant 0 <= j <= |sub.alias|
            invariant forall k :: 0 <= k < j ==> !EqualsIgnoreCase(token, sub.alias[k])
          {
            if EqualsIgnoreCase(token, sub.alias[j]) {
              return sub;
            }
            j := j + 1;
          }
        }
        i := i + 1;
      }
      return null;
    }

    /** BukkitCommand's default `onTabComplete(sender, args)`: the children's names. */
    function TabComplete(args: seq<string>): (r: seq<string>)
      reads this
      ensures |r| == |subCommands|
      ensures forall k :: 0 <= k < |r| ==> r[k] == subCommands[k].name
    {
      Names(subCommands)
    }

    /** The `onTabComplete` the server calls: always a new empty list. */
    function ServerTabComplete(args: seq<string>): (r: seq<string>)
      ensures |r| == 0
    {
      []
    }

    /** `execute`: runs a handler; a throw becomes two messages and goes no further. */
    method Execute(sender: Sender, call: Event, reaction: Reaction)
      modifies sender
      ensures sender.trace == old(sender.trace) + ExecuteEvents(call, reaction)
    {
      sender.Observe([call] + Msgs(reaction.sent));
      if reaction.thrown.Some? {
        sender.SendMessage(Red(FailureNotice));
        sender.SendMessage(Red(FaultLine(reaction.thrown.value)));
      }
    }

    /**
     * `onCommand(sender, command, label, args)`. `nodes` is any set of
     * commands closed under children that holds this one: the part of the
     * heap the dispatch reads.
     */
    method OnCommand(sender: Sender, args: seq<string>, ghost nodes: set<Command>) returns (c: Completion)
      requires this in nodes && Closed(nodes)
      modifies sender
      ensures sender.trace == old(sender.trace) + Dispatch(this, sender, args, nodes).events
      ensures c == Dispatch(this, sender, args, nodes).completion
      decreases |args|
    {
      if permission != [] && permission !in sender.permissions {
        sender.SendMessage(Colorized(noPermissionMessage));
        return Returned(true);
      }
      if |args| == 0 {
        var arguments := [];
        Execute(sender, InvokeGeneric(this, arguments), handlers.generic(arguments));
        if sender.isPlayer {
          Execute(sender, InvokePlayer(this, arguments), handlers.player(arguments));
        } else {
          Execute(sender, InvokeGeneric(this, arguments), handlers.generic(arguments));
        }
      } else {
        if |args| < 2 {
          return Threw(IndexOneOutOfBounds);
        }
        var nextArg := args[1];
        var sub := GetSubCommand(nextArg, true);
        if sub == null {
          var arguments := args;
          if sender.isPlayer {
            Execute(sender, InvokePlayer(this, arguments), handlers.player(arguments));
          } else {
            Execute(sender, InvokeGeneric(this, arguments), handlers.generic(arguments));
          }
        } else {
          var inner := sub.OnCommand(sender, args[1..], nodes);
          if inner.Threw? {
            return inner;
          }
        }
      }
      return Returned(true);
    }
  }

  /**
   * KCommand's `getSubStringListFromArray`: the suffix of `arr` from
   * `startIndex`, or the IllegalAccessException message for a null array
   * or an index outside it.
   */
  function SubStringList(startIndex: int, arr: Option<seq<string>>): (r: Result<seq<string>, string>)
    ensures r.Success? <==> arr.Some? && 0 <= startIndex < |arr.value|
    ensures r.Success? ==> |r.value| == |arr.value| - startIndex > 0 && arr.value[..startIndex] + r.value == arr.value
    ensures arr.None? ==> r == Failure("Array is null.")
    ensures arr.Some? && startIndex < 0 ==> r == Failure("The start index cannot be negative.")
    ensures arr.Some? && 0 <= startIndex && |arr.value| <= startIndex ==>
      r == Failure("The start index is greater than or equal to the length of the array.")
  {
    if arr.None? then Failure("Array is null.")
    else if startIndex < 0 then Failure("The start index cannot be negative.")
    else if startIndex >= |arr.value| then Failure("The start index is greater than or equal to the length of the array.")
    else
      assert arr.value[..startIndex] + arr.value[startIndex..] == arr.value;
      Success(arr.value[startIndex..])
  }

  /** Every child of a command in `nodes` is in `nodes`. */
  ghost predicate Closed(nodes: set<Command>)
    reads nodes
  {
    forall n, c :: n in nodes && c in n.subCommands ==> c in nodes
  }

  /** The names of `children`, in order (a stream map). */
  function Names(children: seq<Command>): (r: seq<string>)
    ensures |r| == |children|
    ensures forall k :: 0 <= k < |r| ==> r[k] == children[k].name
  {
    if children == [] then [] else [children[0].name] + Names(children[1..])
  }

  // ---------------------------------------------------------------------
  // The duplicate guard of addSubCommand

  /** The first of `candidates` that is contained, verbatim, in `existing`. */
  function FirstShared(candidates: seq<string>, existing: seq<string>): (r: Option<string>)
    ensures r.None? <==> forall a :: a in candidates ==> a !in existing
    ensures r.Some? ==> r.value in candidates && r.value in existing
  {
    if candidates == [] then None
    else if candidates[0] in existing then Some(candidates[0])
    else FirstShared(candidates[1..], existing)
  }

  /** The clash, if any, that child `existing` reports against the new `sub`: name first, then aliases. */
  function ClashWith(existing: Command, sub: Command): (r: Option<Clash>)
    ensures r.None? <==> !EqualsIgnoreCase(existing.name, sub.name) && forall a :: a in sub.alias ==> a !in existing.alias
  {
    if EqualsIgnoreCase(existing.name, sub.name) then Some(DuplicateName(existing.name))
    else match FirstShared(sub.alias, existing.alias)
      case Some(a) => Some(DuplicateAlias(a))
      case None => None
  }

  /**
   * No existing child has `sub`'s name (ignoring case) and no alias of
   * `sub` appears verbatim among an existing child's aliases. Names are
   * not compared with aliases.
   */
  ghost predicate Admits(children: seq<Command>, sub: Command) {
    forall k :: 0 <= k < |children| ==>
      !EqualsIgnoreCase(children[k].name, sub.name) && forall a :: a in sub.alias ==> a !in children[k].alias
  }

  /** Every child passed the guard against all the children added before it. */
  ghost predicate GuardedSiblings(children: seq<Command>) {
    forall i, j :: 0 <= i < j < |children| ==> ClashWith(children[i], children[j]).None?
  }

  /** A child the guard admits keeps the children guarded. */
  lemma AdmitKeepsGuarded(children: seq<Command>, sub: Command)
    requires GuardedSiblings(children) && Admits(children, sub)
    ensures GuardedSiblings(children + [sub])
  {
    var cs := children + [sub];
    forall i, j | 0 <= i < j < |cs| ensures ClashWith(cs[i], cs[j]).None? {
      if j == |children| {
        assert cs[i] == children[i];
      }
    }
  }

  /**
   * The guard does not compare a new name with existing aliases: a child
   * whose name equals an earlier child's alias (ignoring case), and that
   * clashes with it in no other way, is admitted, and lookup of that name
   * then finds the earlier child.
   */
  lemma NameMatchingAliasAdmitted(first: Command, second: Command, a: string)
    requires a in first.alias && EqualsIgnoreCase(second.name, a)
    requires !EqualsIgnoreCase(first.name, second.name)
    requires forall b :: b in second.alias ==> b !in first.alias
    ensures FirstClash([first], second).None?
    ensures FirstMatch([first, second], second.name, true) == first
  {
    assert Admits([first], second);
    assert Matches(first, second.name, true);
  }

  /**
   * Aliases are compared verbatim by the guard but ignoring case by the
   * lookup: an alias that differs from an earlier child's alias only in
   * case is admitted, and lookup of it then finds the earlier child.
   */
  lemma CaseVariantAliasAdmitted(first: Command, second: Command, a: string, b: string)
    requires a in first.alias && b in second.alias && EqualsIgnoreCase(b, a)
    requires !EqualsIgnoreCase(first.name, second.name)
    requires forall c :: c in second.alias ==> c !in first.alias
    ensures FirstClash([first], second).None?
    ensures FirstMatch([first, second], b, true) == first
  {
    assert Admits([first], second);
    assert Matches(first, b, true);
  }

  /** The clash `addSubCommand` throws for `sub` against `children`, scanning in order. */
  function FirstClash(children: seq<Command>, sub: Command): (r: Option<Clash>)
    ensures r.None? <==> Admits(children, sub)
    ensures r.Some? && r.value.DuplicateName? ==>
      exists k :: 0 <= k < |children| && r.value.name == children[k].name && EqualsIgnoreCase(children[k].name, sub.name)
    ensures r.Some? && r.value.DuplicateAlias? ==>
      r.value.alias in sub.alias && exists k :: 0 <= k < |children| && r.value.alias in children[k].alias
  {
    if children == [] then None
    else match ClashWith(children[0], sub)
      case Some(c) => Some(c)
      case None => FirstClash(children[1..], sub)
  }

  // ---------------------------------------------------------------------
  // Lookup

  /** `token` names `c`: its name, or when `checkAlias` one of its aliases, ignoring case. */
  predicate Matches(c: Command, token: string, checkAlias: bool) {
    EqualsIgnoreCase(c.name, token) || (checkAlias && exists a :: a in c.alias && EqualsIgnoreCase(token, a))
  }

  /** `children[k]` is the first child that `token` names. */
  predicate FirstMatchAt(children: seq<Command>, token: string, checkAlias: bool, k: int) {
    0 <= k < |children| && Matches(children[k], token, checkAlias)
    && forall m :: 0 <= m < k ==> !Matches(children[m], token, checkAlias)
  }

  /** The first child that `token` names, or null. */
  function FirstMatch(children: seq<Command>, token: string, checkAlias: bool): (r: Command?)
    ensures r == null <==> forall k :: 0 <= k < |children| ==> !Matches(children[k], token, checkAlias)
    ensures r != null ==> exists k :: FirstMatchAt(children, token, checkAlias, k) && children[k] == r
  {
    if children == [] then null
    else if Matches(children[0], token, checkAlias) then children[0]
    else
      var r := FirstMatch(children[1..], token, checkAlias);
      if r == null then r
      else
        var k :| FirstMatchAt(children[1..], token, checkAlias, k) && children[1..][k] == r;
        assert FirstMatchAt(children, token, checkAlias, k + 1) by {
          forall m | 0 <= m < k + 1 ensures !Matches(children[m], token, checkAlias) {
            if m > 0 { assert children[m] == children[1..][m - 1]; }
          }
        }
        r
  }

  // ---------------------------------------------------------------------
  // Dispatch

  /** Handler messages as events. */
  function Msgs(texts: seq<Text>): (r: seq<Event>)
    ensures |r| == |texts| && forall k :: 0 <= k < |r| ==> r[k] == Msg(texts[k])
  {
    seq(|texts|, k requires 0 <= k < |texts| => Msg(texts[k]))
  }

  /** The events of `execute`: the call, the handler's own messages, and two diagnostics if it threw. */
  function ExecuteEvents(call: Event, reaction: Reaction): (r: seq<Event>)
    ensures |r| == 1 + |reaction.sent| + (if reaction.thrown.Some? then 2 else 0)
    ensures r[..1 + |reaction.sent|] == [call] + Msgs(reaction.sent)
    ensures reaction.thrown.Some? ==>
      r[|r| - 2..] == [Msg(Red(FailureNotice)), Msg(Red(FaultLine(reaction.thrown.value)))]
  {
    [call] + Msgs(reaction.sent) +
      match reaction.thrown
      case None => []
      case Some(f) => [Msg(Red(FailureNotice)), Msg(Red(FaultLine(f)))]
  }

  /** The permission gate's outcome at `node`. */
  function Denied(node: Command): Run {
    Run([Msg(Colorized(node.noPermissionMessage))], Returned(true))
  }

  /** Empty `args`: the generic handler, then the player handler (player) or the generic one again. */
  function BothHandlers(node: Command, sender: Sender): seq<Event> {
    ExecuteEvents(InvokeGeneric(node, []), node.handlers.generic([])) +
      (if sender.isPlayer then ExecuteEvents(InvokePlayer(node, []), node.handlers.player([]))
       else ExecuteEvents(InvokeGeneric(node, []), node.handlers.generic([])))
  }

  /** Unmatched `args`: the sender's own handler, once, with all of `args`. */
  function OneHandler(node: Command, sender: Sender, args: seq<string>): seq<Event> {
    if sender.isPlayer then ExecuteEvents(InvokePlayer(node, args), node.handlers.player(args))
    else ExecuteEvents(InvokeGeneric(node, args), node.handlers.generic(args))
  }

  /** What `onCommand` does at `node` with `args`, branch for branch. */
  ghost function Dispatch(node: Command, sender: Sender, args: seq<string>, nodes: set<Command>): (r: Run)
    requires node in nodes && Closed(nodes)
    reads nodes
    ensures r.completion == Returned(true) || r.completion == Threw(IndexOneOutOfBounds)
    ensures r.completion.Threw? ==> r.events == []
    decreases |args|
  {
    if !node.HasPermission(sender) then Denied(node)
    else if |args| == 0 then Run(BothHandlers(node, sender), Returned(true))
    else if |args| == 1 then Run([], Threw(IndexOneOutOfBounds))
    else
      var sub := FirstMatch(node.subCommands, args[1], true);
      if sub == null then Run(OneHandler(node, sender, args), Returned(true))
      else
        var inner := Dispatch(sub, sender, args[1..], nodes);
        Run(inner.events, if inner.completion.Threw? then inner.completion else Returned(true))
  }
}
