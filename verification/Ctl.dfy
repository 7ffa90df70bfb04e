/** The command index and dispatch of src/ctl/ctl.c. */
module Ctl {
  import opened Wrappers

  /** `(unsigned) -1`: no bound. */
  const WORD_ANY := 0xFFFF_FFFF

  /** An entry of the command table. The table ends with an entry that has neither a name nor
      an alias and is not the default; it is not listed. */
  datatype Command = Command(name: string, alias: Option<string>, minArgs: nat, maxArgs: nat, isDefault: bool)

  // ----------------------------------------------------------------- the index

  /** The table by name after the first `k` entries: a later entry replaces an earlier one. */
  function NameTable(cs: seq<Command>, k: nat): map<string, nat>
    requires k <= |cs|
  {
    if k == 0 then map[] else NameTable(cs, k - 1)[cs[k - 1].name := k - 1]
  }

  /** How many entries stand before the first one without an alias. */
  function Aliased(cs: seq<Command>): (n: nat)
    ensures n <= |cs|
    ensures forall i :: 0 <= i < n ==> cs[i].alias.Some?
    ensures n < |cs| ==> cs[n].alias.None?
  {
    if cs == [] || cs[0].alias.None? then 0 else 1 + Aliased(cs[1..])
  }

  function AliasTable(cs: seq<Command>, k: nat): map<string, nat>
    requires k <= Aliased(cs)
  {
    if k == 0 then map[] else AliasTable(cs, k - 1)[cs[k - 1].alias.value := k - 1]
  }

  /** `ctl_get_command`. */
  function Find(cs: seq<Command>, name: string): Option<nat> {
    var table, aliases := NameTable(cs, |cs|), AliasTable(cs, Aliased(cs));
    if name in table then Some(table[name])
    else if name in aliases then Some(aliases[name])
    else None
  }

  /** A call that is made: the entry whose handler runs and what it is given. */
  datatype Call = Call(index: nat, argc: int, argv: seq<string>)

  /** `ctl_run_command` on the arguments left by option parsing. Without any, only the first
      entry is looked at. */
  function Dispatch(cs: seq<Command>, args: seq<string>): Outcome<Call> {
    if args == [] then
      if cs != [] && cs[0].isDefault then Done(Call(0, 1, args)) else Crashed
    else
      match Find(cs, args[0])
      case None => Failed(EINVAL)
      case Some(i) =>
        if i < |cs| && Fits(cs[i], |args|) then Done(Call(i, |args|, args)) else Failed(EINVAL)
  }

  /** The lower bound leaves out the command word that the upper bound counts. */
  predicate Fits(c: Command, remaining: nat) {
    (c.minArgs == WORD_ANY || remaining > c.minArgs) && (c.maxArgs == WORD_ANY || remaining <= c.maxArgs)
  }

  class CtlManager {
    var table: map<string, nat>
    var tableAlias: map<string, nat>
    const commands: seq<Command>

    ghost predicate Valid()
      reads this
    {
      table == NameTable(commands, |commands|) && tableAlias == AliasTable(commands, Aliased(commands))
    }

    /** `ctl_manager_new`. */
    constructor (commands: seq<Command>)
      ensures Valid() && this.commands == commands
    {
      table := map[];
      tableAlias := map[];
      this.commands := commands;
      new;
      var i := 0;
      while i < |commands|
        invariant 0 <= i <= |commands|
        invariant table == NameTable(commands, i) && tableAlias == map[] && this.commands == commands
      {
        table := table[commands[i].name := i];
        i := i + 1;
      }
      i := 0;
      while i < |commands| && commands[i].alias.Some?
        invariant 0 <= i <= Aliased(commands)
        invariant tableAlias == AliasTable(commands, i) && table == NameTable(commands, |commands|)
          && this.commands == commands
        decreases |commands| - i
      {
        tableAlias := tableAlias[commands[i].alias.value := i];
        i := i + 1;
      }
    }

    /** `ctl_get_command`. */
    method GetCommand(name: string) returns (r: Option<nat>)
      requires Valid()
      ensures r == Find(commands, name)
    {
      if name in table {
        return Some(table[name]);
      }
      r := if name in tableAlias then Some(tableAlias[name]) else None;
    }

    /** `ctl_run_command`. */
    method RunCommand(argv: seq<string>, optind: nat) returns (r: Outcome<Call>)
      requires Valid() && optind <= |argv|
      ensures r == Dispatch(commands, argv[optind..])
    {
      var remaining := |argv| - optind;
      var args := argv[optind..];
      if remaining == 0 {
        if |commands| == 0 || !commands[0].isDefault {
          return Crashed;
        }
        return Done(Call(0, 1, args));
      }
      var command := GetCommand(args[0]);
      if command.None? {
        return Failed(EINVAL);
      }
      FindIsChosen(commands, args[0], command.value);
      var c := commands[command.value];
      if c.minArgs != WORD_ANY && remaining <= c.minArgs {
        return Failed(EINVAL);
      }
      if c.maxArgs != WORD_ANY && remaining > c.maxArgs {
        return Failed(EINVAL);
      }
      r := Done(Call(command.value, remaining, args));
    }
  }

  // ------------------------------------------------------------------ the laws

  /** The last entry of that name. */
  predicate LastNamed(cs: seq<Command>, name: string, i: nat) {
    i < |cs| && cs[i].name == name && forall j :: i < j < |cs| ==> cs[j].name != name
  }

  predicate Named(cs: seq<Command>, name: string) {
    exists i :: 0 <= i < |cs| && cs[i].name == name
  }

  predicate NoGapBefore(cs: seq<Command>, i: nat) {
    i < |cs| && forall j :: 0 <= j <= i ==> cs[j].alias.Some?
  }

  /** The last entry of that alias among those before the first one without an alias. */
  ghost predicate LastAliased(cs: seq<Command>, name: string, i: nat) {
    && NoGapBefore(cs, i) && cs[i].alias == Some(name)
    && forall j: nat :: i < j && NoGapBefore(cs, j) ==> cs[j].alias != Some(name)
  }

  /** What a linear scan of the table picks. */
  ghost predicate Chosen(cs: seq<Command>, name: string, i: nat) {
    LastNamed(cs, name, i) || (!Named(cs, name) && LastAliased(cs, name, i))
  }

  lemma {:induction false} NameTableLast(cs: seq<Command>, k: nat, name: string)
    requires k <= |cs|
    ensures name in NameTable(cs, k) <==> exists i :: 0 <= i < k && cs[i].name == name
    ensures name in NameTable(cs, k) ==>
      var i := NameTable(cs, k)[name];
      i < k && cs[i].name == name && forall j :: i < j < k ==> cs[j].name != name
  {
    if k > 0 {
      NameTableLast(cs, k - 1, name);
    }
  }

  lemma {:induction false} AliasTableLast(cs: seq<Command>, k: nat, name: string)
    requires k <= Aliased(cs)
    ensures name in AliasTable(cs, k) <==> exists i :: 0 <= i < k && cs[i].alias == Some(name)
    ensures name in AliasTable(cs, k) ==>
      var i := AliasTable(cs, k)[name];
      i < k && cs[i].alias == Some(name) && forall j :: i < j < k ==> cs[j].alias != Some(name)
  {
    if k > 0 {
      AliasTableLast(cs, k - 1, name);
    }
  }

  lemma {:induction false} AliasedExactly(cs: seq<Command>, i: nat)
    ensures NoGapBefore(cs, i) <==> i < Aliased(cs)
  {
  }

  /** The two-table lookup agrees with the linear scan. */
  lemma {:induction false} FindIsChosen(cs: seq<Command>, name: string, i: nat)
    ensures Find(cs, name) == Some(i) <==> Chosen(cs, name, i)
    ensures Find(cs, name) == Some(i) ==> i < |cs|
  {
    NameTableLast(cs, |cs|, name);
    AliasTableLast(cs, Aliased(cs), name);
    forall j: nat
      ensures NoGapBefore(cs, j) <==> j < Aliased(cs)
    {
      AliasedExactly(cs, j);
    }
  }

  /** Nothing is found exactly when no entry has the name and none before the first one
      without an alias has it as its alias. */
  lemma {:induction false} NotFoundExactly(cs: seq<Command>, name: string)
    ensures Find(cs, name) == None <==>
      !Named(cs, name) && forall i: nat :: NoGapBefore(cs, i) ==> cs[i].alias != Some(name)
  {
    NameTableLast(cs, |cs|, name);
    AliasTableLast(cs, Aliased(cs), name);
    forall j: nat
      ensures NoGapBefore(cs, j) <==> j < Aliased(cs)
    {
      AliasedExactly(cs, j);
    }
  }

  /** A handler runs exactly when its entry is chosen and the argument count fits its bounds;
      with no argument at all, exactly when the first entry is the default. */
  lemma {:induction false} RunsExactly(cs: seq<Command>, args: seq<string>, call: Call)
    ensures Dispatch(cs, args) == Done(call) <==>
      if args == [] then cs != [] && cs[0].isDefault && call == Call(0, 1, [])
      else Chosen(cs, args[0], call.index) && Fits(cs[call.index], |args|) && call == Call(call.index, |args|, args)
  {
    if args != [] {
      FindIsChosen(cs, args[0], call.index);
    }
  }

  /** Bounds that are met by some argument count: the upper one, which counts the command
      word, has to exceed the lower one. */
  lemma {:induction false} CanFit(c: Command)
    ensures (exists n: nat :: n > 0 && Fits(c, n)) <==>
      (c.maxArgs == WORD_ANY || (c.maxArgs > 0 && (c.minArgs == WORD_ANY || c.minArgs < c.maxArgs)))
  {
    if c.maxArgs == WORD_ANY {
      assert Fits(c, c.minArgs + 1);
    } else if c.maxArgs > 0 && (c.minArgs == WORD_ANY || c.minArgs < c.maxArgs) {
      assert Fits(c, c.maxArgs);
    }
  }
}
