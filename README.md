# Command tree and recursive dispatcher of KCore's command-bukkit module

This project models, in Dafny, the command node that a Bukkit plugin built
on KCore extends to declare a command. `BukkitCommand` and `KCommand` are
two near-identical copies of the same logic, so one class,
`Commands.Command`, models both. In KCommand the four-argument
`onCommand` is not `final`, so a subclass could override the recursive
call. The shared model assumes that no subclass does.

- **Tree building.** `AddSubCommand` appends a child to the node's
  `subCommands` list in place. Its duplicate guard throws, leaving the list
  unchanged, when an existing child's name equals the new name ignoring
  case, or when an alias of the new child appears verbatim in an existing
  child's alias list.
- **Lookup.** `GetSubCommand` scans the children in insertion order. For
  each child it checks the name, then that child's aliases, all ignoring
  case. It returns the first child that matches, or null.
- **Dispatch.** `OnCommand` checks the permission first, then branches on
  the length of `args`. With arguments, it looks up `args[1]` and either
  runs the sender's handler through `execute` or re-enters the matched
  child with `args[1..]`.
- **Helpers.** `execute` (fault isolation), `hasPermission`, the default
  tab completion, `getNameAndAlias`, `getSubStringListFromArray`, both
  versions of `replacePlaceholders`, KCommand's default handlers, and the
  constructor's defaulting of null arguments.

Modules:

- `Wrappers`: `Option` for Java's null and `Result` for a thrown exception.
- `JavaText`: `String.equalsIgnoreCase` (ASCII case folding) and the literal `String.replace`.
- `Placeholders`: both versions of `replacePlaceholders`.
- `Commands`: the node, the sender, `execute`, dispatch, and the specification functions for the guard, the lookup and dispatch.
- `DispatchProperties`: dispatch restated as a walk down the tree, a permission gate at every node on the path, and the handling at the last node.

### What the sender sees

The sender is abstract. It has an `isPlayer` flag, a set of permissions,
and a `trace` of events: the messages it receives, and the handler
invocations made on its behalf (`InvokeGeneric(node, args)`,
`InvokePlayer(node, args)`).

A handler body is not visible, so each node carries its two handlers as
data. For every argument list, a handler gives the messages it sends and
whether it then throws.

`OnCommand` returns a `Completion`. `Returned(true)` is the Java return
value. `Threw(fault)` is the `ArrayIndexOutOfBoundsException` that escapes
`onCommand`.

`Dispatch` is the specification function that `OnCommand` is proved
against. It reads the nodes of a set `nodes` that is closed under children.
It terminates because `args` shrinks by one at each level. The model needs
no acyclicity assumption.

### The code as written

The model follows the code, quirks included:

- The lookup reads `args[1]`, not `args[0]`. A reached node that admits the
  sender and gets exactly one argument throws an uncaught
  `ArrayIndexOutOfBoundsException`, and nothing has been sent by then
  (`ThrowsOnlyOnOneArgument`). A matched child receives `args[1..]`, which
  still starts with the token that matched it.
- The permission is checked at every node the walk enters, not only at the
  last one (`DeniedOnPath`).
- With empty arguments, a player gets the generic handler and then the
  player handler. Any other sender gets the generic handler twice. With
  unmatched arguments, exactly one handler runs: the player handler for a
  player, the generic one otherwise.
- The duplicate guard never compares a name with an alias. It also compares
  aliases case-sensitively, while the lookup ignores case. Both clashes are
  admitted, and the later child is then shadowed
  (`NameMatchingAliasAdmitted`, `CaseVariantAliasAdmitted`).
- The two versions of `replacePlaceholders` differ only on an empty message
  combined with an empty key. There, `String.replace` with an empty target
  inserts the value (`VersionsDifferOnEmptyKey`).

## Model

| member | source | states |
|---|---|---|
| `Commands.Command.constructor` | command-bukkit/src/main/java/me/khanh/libs/kcore/command/bukkit/BukkitCommand.java:82-91 | A null alias list becomes the empty list. A null permission, description or usage becomes "". Given values are kept. The child list starts empty. KCommand.java:54-62 is the same. |
| `Commands.Command.AddSubCommand` | command-bukkit/src/main/java/me/khanh/libs/kcore/command/bukkit/BukkitCommand.java:175-190 | When the guard finds no clash, the list becomes `old + [sub]` and the receiver is returned. Otherwise it throws the first clash in scan order, with the list unchanged. It preserves `GuardedSiblings`. |
| `Commands.FirstClash` | command-bukkit/src/main/java/me/khanh/libs/kcore/command/bukkit/KCommand.java:154-164 | There is no clash exactly when no child's name equals the new name ignoring case and no new alias is in any child's alias list. A name clash reports the existing child's name. An alias clash reports an alias present in both lists. |
| `Commands.AdmitKeepsGuarded` | command-bukkit/src/main/java/me/khanh/libs/kcore/command/bukkit/KCommand.java:153-168 | Appending an admitted child keeps every child clash-free against each child added before it. |
| `Commands.NameMatchingAliasAdmitted` | command-bukkit/src/main/java/me/khanh/libs/kcore/command/bukkit/BukkitCommand.java:176-185 | For any two children that clash neither by name nor by an exact alias, if the second child's name equals an alias of the first ignoring case, the guard admits the second child. Lookup of that name then returns the first child. |
| `Commands.CaseVariantAliasAdmitted` | command-bukkit/src/main/java/me/khanh/libs/kcore/command/bukkit/BukkitCommand.java:181-185 | For any two children that clash neither by name nor by an exact alias, if an alias of the second equals an alias of the first ignoring case, the guard admits the second child. Lookup of that alias then returns the first child. |
| `Commands.Command.GetSubCommand` | command-bukkit/src/main/java/me/khanh/libs/kcore/command/bukkit/KCommand.java:319-339 | The nested-loop scan returns exactly `FirstMatch` of the children. |
| `Commands.FirstMatch` | command-bukkit/src/main/java/me/khanh/libs/kcore/command/bukkit/BukkitCommand.java:352-370 | The result is null iff no child matches by name or, when aliases are checked, by alias, ignoring case. Otherwise it is the child at the least index that matches, so an earlier child's alias beats a later child's name. |
| `Commands.Command.TabComplete` | command-bukkit/src/main/java/me/khanh/libs/kcore/command/bukkit/BukkitCommand.java:239-243 | Returns the children's names in insertion order. It has one entry per child. |
| `Commands.Command.ServerTabComplete` | command-bukkit/src/main/java/me/khanh/libs/kcore/command/bukkit/BukkitCommand.java:417-420 | The server-facing tab completion always returns an empty list. |
| `Commands.Command.HasPermission` | command-bukkit/src/main/java/me/khanh/libs/kcore/command/bukkit/BukkitCommand.java:313-315 | True whenever the permission is empty. Otherwise true exactly when the sender holds the permission. |
| `Commands.Command.GetNameAndAlias` | command-bukkit/src/main/java/me/khanh/libs/kcore/command/bukkit/KCommand.java:140-144 | Returns the aliases in order followed by the name. Its length is one more than the alias count. |
| `Commands.SubStringList` | command-bukkit/src/main/java/me/khanh/libs/kcore/command/bukkit/KCommand.java:349-364 | Succeeds iff the array is non-null and `0 <= startIndex < length`. The result is then the non-empty suffix from `startIndex`, of length `length - startIndex`. Otherwise it fails with the message for the first failed check. |
| `Commands.DefaultHandlers` | command-bukkit/src/main/java/me/khanh/libs/kcore/command/bukkit/KCommand.java:176-186 | For any arguments, the default generic handler sends nothing and does not throw. The default player handler sends exactly "Console only command." in red. |
| `Commands.ExecuteEvents` | command-bukkit/src/main/java/me/khanh/libs/kcore/command/bukkit/BukkitCommand.java:333-343 | After the call and the handler's own messages, a throwing handler adds exactly two messages: the failure notice, then `class: message`. A handler that does not throw adds nothing. |
| `Commands.Command.Execute` | command-bukkit/src/main/java/me/khanh/libs/kcore/command/bukkit/KCommand.java:307-317 | Appends exactly `ExecuteEvents` to the sender's trace. It never throws. |
| `Commands.Dispatch` | command-bukkit/src/main/java/me/khanh/libs/kcore/command/bukkit/KCommand.java:261-305 | Whatever the handlers do, a dispatch either returns true or throws the index-1 out-of-bounds fault. This assumes the no-permission message is a string; see Left out. When it throws, it has sent nothing. |
| `Commands.Command.OnCommand` | command-bukkit/src/main/java/me/khanh/libs/kcore/command/bukkit/BukkitCommand.java:372-415 | Appends exactly the events of `Dispatch` to the sender's trace and ends as `Dispatch` does. |
| `DispatchProperties.Walk` | command-bukkit/src/main/java/me/khanh/libs/kcore/command/bukkit/BukkitCommand.java:393-409 | The resolver path starts at the node. Each later node is the first match, among its predecessor's children, of the token at index 1 of the predecessor's arguments. The last node receives `args` without the first `len(path) - 1` elements. With two or more left, nothing matches. |
| `DispatchProperties.DispatchIsGatedWalk` | command-bukkit/src/main/java/me/khanh/libs/kcore/command/bukkit/BukkitCommand.java:372-415 | A dispatch equals the permission gate applied at every node of the walk, in order, followed by the last node's handling of the remaining arguments. |
| `DispatchProperties.GatePermitted` | command-bukkit/src/main/java/me/khanh/libs/kcore/command/bukkit/KCommand.java:264-267 | When every node on the path admits the sender, the gate passes the rest of the dispatch through unchanged. |
| `DispatchProperties.GateDenied` | command-bukkit/src/main/java/me/khanh/libs/kcore/command/bukkit/BukkitCommand.java:374-377 | The first node that refuses the sender answers alone with its no-permission message. |
| `DispatchProperties.DeniedOnPath` | command-bukkit/src/main/java/me/khanh/libs/kcore/command/bukkit/BukkitCommand.java:374-409 | If a node on the path refuses the sender, the whole dispatch is one colorized no-permission message from the first such node. It invokes no handler and returns true. |
| `DispatchProperties.PermittedPath` | command-bukkit/src/main/java/me/khanh/libs/kcore/command/bukkit/BukkitCommand.java:379-411 | If every node on the path admits the sender, the dispatch is the last node's handling of the remaining arguments. |
| `DispatchProperties.ThrowsOnlyOnOneArgument` | command-bukkit/src/main/java/me/khanh/libs/kcore/command/bukkit/KCommand.java:283-285 | A dispatch throws iff every node on the path admits the sender and exactly one argument is left at the last node. |
| `DispatchProperties.ExecuteInvokesOnce` | command-bukkit/src/main/java/me/khanh/libs/kcore/command/bukkit/KCommand.java:307-317 | One `execute` holds exactly one handler invocation. Everything else it adds is a message. |
| `DispatchProperties.EmptyArgsInvokesTwice` | command-bukkit/src/main/java/me/khanh/libs/kcore/command/bukkit/KCommand.java:269-279 | With empty arguments and permission, there are exactly two invocations, both with an empty list. The first is generic. The second is the player handler for a player and the generic handler otherwise. The dispatch returns true. |
| `DispatchProperties.UnmatchedInvokesOnce` | command-bukkit/src/main/java/me/khanh/libs/kcore/command/bukkit/KCommand.java:283-295 | When `args[1]` matches no child, exactly one handler of the sender's kind runs, with the full `args`, and the dispatch returns true. |
| `DispatchProperties.MatchedRecurses` | command-bukkit/src/main/java/me/khanh/libs/kcore/command/bukkit/KCommand.java:297-300 | On a match, the dispatch is the matched child's dispatch of the strictly shorter `args[1..]`. |
| `DispatchProperties.DefaultHandlersEmptyArgs` | command-bukkit/src/main/java/me/khanh/libs/kcore/command/bukkit/KCommand.java:269-279 | With KCommand's default handlers and empty arguments, a non-player sees two silent generic invocations. A player sees the generic invocation, the player invocation and the message "Console only command.". |
| `Placeholders.ReplacePlaceholders` | command-bukkit/src/main/java/me/khanh/libs/kcore/command/bukkit/BukkitCommand.java:300-305 | The loop applies one literal replace-all per entry, in the map's iteration order. An empty map leaves the message unchanged. |
| `Placeholders.ReplacePlaceholdersEarlyReturn` | command-bukkit/src/main/java/me/khanh/libs/kcore/command/bukkit/KCommand.java:249-259 | An empty message is returned unchanged. An empty map leaves the message unchanged. Otherwise the result is the same left-to-right replace-all per entry. |
| `Placeholders.ReplaceEachSelfMapping` | command-bukkit/src/main/java/me/khanh/libs/kcore/command/bukkit/KCommand.java:254-256 | Entries that map each non-empty key to itself leave every message unchanged. |
| `Placeholders.ReplaceEachOnEmpty` | command-bukkit/src/main/java/me/khanh/libs/kcore/command/bukkit/BukkitCommand.java:301-303 | With non-empty keys, the version without early return also maps the empty message to itself. |
| `Placeholders.VersionsDifferOnEmptyKey` | command-bukkit/src/main/java/me/khanh/libs/kcore/command/bukkit/BukkitCommand.java:300-305 | On an empty message, the entry ("", v) yields v without the early return. With the early return (KCommand.java:250-252), it yields "". |
| `JavaText.ReplaceAbsent` | command-bukkit/src/main/java/me/khanh/libs/kcore/command/bukkit/BukkitCommand.java:302 | A non-empty key that does not occur in the message leaves it unchanged. |
| `JavaText.ReplaceWithItself` | command-bukkit/src/main/java/me/khanh/libs/kcore/command/bukkit/KCommand.java:255 | Replacing a non-empty key by itself is the identity. |
| `JavaText.ReplaceKeepsLength` | command-bukkit/src/main/java/me/khanh/libs/kcore/command/bukkit/BukkitCommand.java:302 | A value as long as its non-empty key keeps the message's length. |
| `JavaText.ReplaceEmptyTargetLength` | command-bukkit/src/main/java/me/khanh/libs/kcore/command/bukkit/KCommand.java:255 | An empty key inserts the value at all `len + 1` positions of the message. |

## Left out

- `colorize` is left out in both files. It needs a regular expression, a reflective probe for `ChatColor.of` and `ChatColor.translateAlternateColorCodes`, and none of these is part of this model. The no-permission message is delivered as the symbolic `Colorized(text)`.
- The `ChatColor.RED` prefix is represented symbolically as `Red(text)`, not as its bytes.
- The `printStackTrace` logging in `execute` is left out. It is output to the server log, not to the sender.
- The reflective lookup of the server's command map and `registerCommand` (BukkitCommand.java:49-65 and 197-214) are left out. They are platform plumbing, and their exceptions are only printed.
- `getUnknownCommandMessage` is declared but never called by the dispatch logic, so nothing about it is modelled.
- The `parent` reference is stored and never used, so it has no behaviour to verify.
- `JavaText.EqualsIgnoreCase` folds only ASCII letters. Java's `equalsIgnoreCase` also folds other Unicode letters.
- The concrete `CommandSender` and `Player` types are replaced by the abstract sender.
- Handler bodies are replaced by their reactions as data. A handler's reaction depends only on its argument list.
- `Commands.Dispatch` assumes `getNoPermissionMessage()` returns a string and does not throw. In the code it is called on every denial, outside `execute`. If it returns null, `colorize` throws a `NullPointerException`, and that exception, like any thrown by `getNoPermissionMessage()` itself, escapes `onCommand`. The model keeps the message as a fixed string, so `Dispatch`'s promise that the only possible exception is the index-1 fault holds only under that assumption.
- `Commands.Dispatch` passes `[]` to both handlers when `args` is empty. In the code, both invocations receive the same mutable `ArrayList`, so a first handler that changes the list changes what the second handler receives. The model does not let handlers change their arguments.
- `Commands.Command.OnCommand` models BukkitCommand's `final` dispatcher. KCommand's four-argument `onCommand` is not `final`, and the model assumes that no subclass overrides it, so the recursion reaches the same logic.
- `JavaText.Replace` works on Dafny characters, which are Unicode scalar values. Java strings are UTF-16 code units. The two agree except for an empty target on text with characters outside the Basic Multilingual Plane: Java inserts the replacement between the two surrogates too. So `JavaText.ReplaceEmptyTargetLength` counts code points where Java counts code units.
- `Placeholders.ReplacePlaceholders` and `Placeholders.ReplacePlaceholdersEarlyReturn` take the map as non-null (key, value) strings. A null key or value throws a `NullPointerException` in `String.replace`, which this model does not capture.
- `Throwable.getMessage()` returning null is not distinguished: the fault message is always a string.
- The shorter constructor overloads are not modelled separately. Each one delegates to the full constructor with null, i.e. `None`, for what it omits.
- `hasPermission(Player)` and `onTabComplete(Player, List)` are not modelled separately. They delegate unchanged to their `CommandSender` versions.
- KCommand's two `onTabComplete` methods have empty bodies that return nothing, so nothing about them is modelled.
- The `command` and `label` parameters of `onCommand` are only passed down unchanged, so they are not modelled.
- Aliasing of Java lists is not modelled. The alias list passed to the constructor is kept by reference, and `getSubStringListFromArray` returns a view over the array. In this model both are immutable sequences.
- For an empty key, the JDK's `String.replace` can fail with `OutOfMemoryError` when the result length overflows `int`. Lengths here are unbounded.
