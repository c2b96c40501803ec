/** The option parser of the tmux shim: clustered flags, valued options, `--` and positionals.
    A flag `-x` is written as its character `x`. */
module TmuxArgs {
  import opened Text

  datatype ParsedArgs = ParsedArgs(flags: set<char>, values: map<char, seq<string>>, positional: seq<string>) {
    function AddFlags(more: set<char>): ParsedArgs {
      this.(flags := flags + more)
    }

    /** All values given for a flag, in order. */
    function All(flag: char): seq<string> {
      if flag in values then values[flag] else []
    }

    function AddValue(flag: char, value: string): ParsedArgs {
      this.(values := values[flag := All(flag) + [value]])
    }

    function AddPositional(args: seq<string>): ParsedArgs {
      this.(positional := positional + args)
    }

    /** The last value given for a flag. */
    function Value(flag: char): Option<string> {
      if All(flag) != [] then Some(All(flag)[|All(flag)| - 1]) else None
    }
  }

  const EMPTY := ParsedArgs({}, map[], [])

  /** The options a command knows; no command has an option `--`. */
  datatype Known = Known(valueFlags: set<char>, boolFlags: set<char>) {
    predicate Valid() {
      '-' !in valueFlags && '-' !in boolFlags
    }
  }

  predicate IsPositional(arg: string) {
    arg == "" || arg[0] != '-' || arg == "-" || arg[..2] == "--"
  }

  /** How many characters at the start of a cluster are boolean flags. */
  function Leading(known: Known, cluster: string): (count: nat)
    ensures count <= |cluster|
    ensures forall i | 0 <= i < count :: cluster[i] in known.boolFlags
    ensures count < |cluster| ==> cluster[count] !in known.boolFlags
  {
    if cluster == "" || cluster[0] !in known.boolFlags then 0
    else 1 + Leading(known, cluster[1..])
  }

  function Chars(text: string): set<char> {
    set i | 0 <= i < |text| :: text[i]
  }

  predicate TakesValue(known: Known, cluster: string) {
    Leading(known, cluster) < |cluster| && cluster[Leading(known, cluster)] in known.valueFlags
  }

  /** What the option takes as its value: the rest of its own argument, else the next argument. */
  function ValueOf(known: Known, cluster: string, rest: seq<string>): string
    requires TakesValue(known, cluster)
  {
    var remainder := cluster[Leading(known, cluster) + 1..];
    if remainder != "" then remainder else if rest != [] then rest[0] else ""
  }

  function RestAfter(known: Known, cluster: string, rest: seq<string>): (left: seq<string>)
    requires TakesValue(known, cluster)
    ensures |left| <= |rest|
  {
    if cluster[Leading(known, cluster) + 1..] == "" && rest != [] then rest[1..] else rest
  }

  /** One cluster `-cluster`, with the arguments after it: what it adds and what it leaves. With an unknown
      character, the flags before it count and the whole argument is a positional as well. */
  function ReadCluster(known: Known, parsed: ParsedArgs, cluster: string, rest: seq<string>)
    : (read: (ParsedArgs, seq<string>))
    ensures |read.1| <= |rest|
  {
    var count := Leading(known, cluster);
    var flagged := parsed.AddFlags(Chars(cluster[..count]));
    if TakesValue(known, cluster) then
      (flagged.AddValue(cluster[count], ValueOf(known, cluster, rest)), RestAfter(known, cluster, rest))
    else if count == |cluster| then (flagged, rest)
    else (flagged.AddPositional(["-" + cluster]), rest)
  }

  /** The argument at the head of the rest, other than `--`. */
  function Head(known: Known, parsed: ParsedArgs, arg: string, rest: seq<string>): (read: (ParsedArgs, seq<string>))
    ensures |read.1| <= |rest|
  {
    if IsPositional(arg) then (parsed.AddPositional([arg]), rest)
    else ReadCluster(known, parsed, arg[1..], rest)
  }

  function ParseFrom(known: Known, parsed: ParsedArgs, args: seq<string>): ParsedArgs
    decreases |args|
  {
    if args == [] then parsed
    else if args[0] == "--" then parsed.AddPositional(args[1..])
    else
      var (next, left) := Head(known, parsed, args[0], args[1..]);
      ParseFrom(known, next, left)
  }

  /** The shim's loop over arguments and, inside, over the characters of a cluster. */
  method ParseTmuxArgs(args: seq<string>, known: Known) returns (parsed: ParsedArgs)
    ensures parsed == ParseFrom(known, EMPTY, args)
  {
    parsed := EMPTY;
    var index := 0;
    var pastTerminator := false;
    while index < |args|
      invariant 0 <= index <= |args|
      invariant ParseFrom(known, EMPTY, args)
             == if pastTerminator then parsed.AddPositional(args[index..]) else ParseFrom(known, parsed, args[index..])
    {
      var arg := args[index];
      assert args[index..] == [arg] + args[index + 1..];
      if pastTerminator {
        assert parsed.positional + args[index..] == parsed.positional + [arg] + args[index + 1..];
        parsed := parsed.(positional := parsed.positional + [arg]);
        index := index + 1;
      } else if arg == "--" {
        pastTerminator := true;
        index := index + 1;
      } else if arg == "" || arg[0] != '-' || arg == "-" || arg[..2] == "--" {
        parsed := parsed.(positional := parsed.positional + [arg]);
        index := index + 1;
      } else {
        parsed, index := ParseCluster(args, known, parsed, index);
      }
    }
    assert args[index..] == [];
    assert parsed.positional + [] == parsed.positional;
  }

  method ParseCluster(args: seq<string>, known: Known, before: ParsedArgs, at: nat)
    returns (parsed: ParsedArgs, index: nat)
    requires at < |args| && !IsPositional(args[at]) && args[at] != "--"
    ensures at < index <= |args|
    ensures (parsed, args[index..]) == ReadCluster(known, before, args[at][1..], args[at + 1..])
  {
    parsed, index := before, at;
    var arg := args[at];
    var cluster := arg[1..];
    ghost var rest := args[at + 1..];
    var cursor := 0;
    var recognized := false;
    assert cluster[..0] == "" && cluster[0..] == cluster;
    assert parsed.flags + Chars("") == parsed.flags;
    while cursor < |cluster|
      invariant 0 <= cursor <= |cluster|
      invariant index == at && (recognized <==> cursor > 0)
      invariant parsed == before.AddFlags(Chars(cluster[..cursor]))
      invariant Leading(known, cluster) == cursor + Leading(known, cluster[cursor..])
    {
      hide ReadCluster, Chars, Leading;
      var character := cluster[cursor];
      ScanStep(known, cluster, cursor);
      if character in known.boolFlags {
        parsed := parsed.(flags := parsed.flags + {character});
        recognized := true;
        cursor := cursor + 1;
      } else if character in known.valueFlags {
        ReadValued(known, before, cluster, cursor, rest);
        var value, next := AttachedOrNext(args, at, cluster[cursor + 1..]);
        parsed := parsed.AddValue(character, value);
        return parsed, next;
      } else {
        ReadUnknown(known, before, cluster, cursor, rest);
        assert "-" + cluster == arg;
        recognized := false;
        break;
      }
    }
    if !recognized {
      parsed := parsed.(positional := parsed.positional + [arg]);
    }
    index := index + 1;
  }

  lemma ScanStep(known: Known, cluster: string, cursor: nat)
    requires cursor < |cluster| && Leading(known, cluster) == cursor + Leading(known, cluster[cursor..])
    ensures if cluster[cursor] in known.boolFlags
      then Leading(known, cluster) == cursor + 1 + Leading(known, cluster[cursor + 1..])
      else Leading(known, cluster) == cursor
    ensures Chars(cluster[..cursor + 1]) == Chars(cluster[..cursor]) + {cluster[cursor]}
  {
    assert cluster[cursor..][1..] == cluster[cursor + 1..];
    assert cluster[..cursor + 1] == cluster[..cursor] + [cluster[cursor]];
    CharsAppend(cluster[..cursor], cluster[cursor]);
  }

  method AttachedOrNext(args: seq<string>, at: nat, remainder: string) returns (value: string, index: nat)
    requires at < |args|
    ensures var rest := args[at + 1..];
      && value == (if remainder != "" then remainder else if rest != [] then rest[0] else "")
      && at < index <= |args|
      && args[index..] == if remainder == "" && rest != [] then rest[1..] else rest
  {
    value, index := remainder, at;
    if remainder == "" {
      index := index + 1;
      value := if index < |args| then args[index] else "";
    }
    index := if index < |args| then index + 1 else index;
  }

  lemma ReadValued(known: Known, before: ParsedArgs, cluster: string, cursor: nat, rest: seq<string>)
    requires cursor < |cluster| && Leading(known, cluster) == cursor && cluster[cursor] in known.valueFlags
    ensures var remainder := cluster[cursor + 1..];
      ReadCluster(known, before, cluster, rest) ==
        (before.AddFlags(Chars(cluster[..cursor])).AddValue(cluster[cursor],
           if remainder != "" then remainder else if rest != [] then rest[0] else ""),
         if remainder == "" && rest != [] then rest[1..] else rest)
  {
  }

  lemma ReadUnknown(known: Known, before: ParsedArgs, cluster: string, cursor: nat, rest: seq<string>)
    requires cursor < |cluster| && Leading(known, cluster) == cursor && cluster[cursor] !in known.valueFlags
    ensures ReadCluster(known, before, cluster, rest) ==
        (before.AddFlags(Chars(cluster[..cursor])).AddPositional(["-" + cluster]), rest)
  {
  }

  lemma CharsAppend(text: string, c: char)
    ensures Chars(text + [c]) == Chars(text) + {c}
  {
    assert (text + [c])[|text|] == c;
    assert forall i | 0 <= i < |text| :: (text + [c])[i] == text[i];
  }

  // Contexts in which the next argument is read as an option

  /** Parsing `args` meets no `--` and no option that is still waiting for its value at the end. */
  predicate Complete(known: Known, args: seq<string>)
    decreases |args|
  {
    if args == [] then true
    else
      var arg, rest := args[0], args[1..];
      if arg == "--" then false
      else if IsPositional(arg) || !TakesValue(known, arg[1..]) then Complete(known, rest)
      else if arg[1..][Leading(known, arg[1..]) + 1..] == "" then rest != [] && Complete(known, rest[1..])
      else Complete(known, rest)
  }

  lemma ParseHead(known: Known, parsed: ParsedArgs, arg: string, rest: seq<string>)
    requires arg != "--"
    ensures ParseFrom(known, parsed, [arg] + rest)
         == ParseFrom(known, Head(known, parsed, arg, rest).0, Head(known, parsed, arg, rest).1)
  {
    assert ([arg] + rest)[1..] == rest;
  }

  lemma HeadConcat(known: Known, parsed: ParsedArgs, arg: string, rest: seq<string>, more: seq<string>)
    requires arg != "--" && Complete(known, [arg] + rest)
    ensures Head(known, parsed, arg, rest + more)
        == (Head(known, parsed, arg, rest).0, Head(known, parsed, arg, rest).1 + more)
    ensures Complete(known, Head(known, parsed, arg, rest).1)
  {
    assert ([arg] + rest)[1..] == rest;
    if rest != [] {
      assert (rest + more)[1..] == rest[1..] + more;
    }
  }

  /** After a complete context, parsing goes on from what the context gave. */
  lemma {:induction false} ParseConcat(known: Known, parsed: ParsedArgs, context: seq<string>, more: seq<string>)
    requires Complete(known, context)
    ensures ParseFrom(known, parsed, context + more) == ParseFrom(known, ParseFrom(known, parsed, context), more)
    decreases |context|
  {
    if context == [] {
      assert context + more == more;
    } else {
      var arg, rest := context[0], context[1..];
      assert context == [arg] + rest;
      assert context + more == [arg] + (rest + more);
      HeadConcat(known, parsed, arg, rest, more);
      ParseHead(known, parsed, arg, rest);
      ParseHead(known, parsed, arg, rest + more);
      var (next, left) := Head(known, parsed, arg, rest);
      ParseConcat(known, next, left, more);
    }
  }

  // Clusters

  /** Every character of the cluster is an option: flags, and possibly a valued option that takes the rest. */
  predicate Recognized(known: Known, cluster: string) {
    cluster != "" && (Leading(known, cluster) == |cluster| || TakesValue(known, cluster))
  }

  /** The same options, one argument each; an attached value becomes an argument of its own. */
  function Separated(known: Known, cluster: string): seq<string>
    requires Recognized(known, cluster)
  {
    if cluster[0] in known.boolFlags then
      ["-" + [cluster[0]]] + (if |cluster| == 1 then [] else Separated(known, cluster[1..]))
    else
      ["-" + [cluster[0]]] + (if |cluster| == 1 then [] else [cluster[1..]])
  }

  lemma OptionArg(cluster: string)
    requires cluster != "" && cluster[0] != '-'
    ensures var arg := "-" + cluster;
      !IsPositional(arg) && arg != "--" && arg[1..] == cluster
  {
    assert ("-" + cluster)[1] == cluster[0];
    assert ("-" + cluster)[..2][1] == cluster[0];
  }

  lemma ReadFlag(known: Known, parsed: ParsedArgs, flag: char, rest: seq<string>)
    requires flag in known.boolFlags
    ensures ReadCluster(known, parsed, [flag], rest) == (parsed.AddFlags({flag}), rest)
  {
    assert [flag][1..] == "";
    assert [flag][..1] == "" + [flag] && Chars("") == {};
    CharsAppend("", flag);
    assert Leading(known, [flag]) == 1 && !TakesValue(known, [flag]);
    assert Chars([flag][..1]) == {flag};
  }

  lemma ReadCons(known: Known, parsed: ParsedArgs, flag: char, tail: string, rest: seq<string>)
    requires flag in known.boolFlags && Recognized(known, tail)
    ensures ReadCluster(known, parsed, [flag] + tail, rest)
         == ReadCluster(known, parsed.AddFlags({flag}), tail, rest)
  {
    var cluster, count := [flag] + tail, Leading(known, tail);
    assert cluster[1..] == tail;
    assert cluster[..count + 1] == [flag] + tail[..count];
    CharsCons(flag, tail[..count]);
    assert cluster[count + 1..] == tail[count..];
    assert parsed.flags + {flag} + Chars(tail[..count]) == parsed.flags + Chars(cluster[..count + 1]);
    if count < |tail| {
      assert cluster[count + 1 + 1..] == tail[count + 1..];
    }
  }

  lemma ReadAttached(known: Known, parsed: ParsedArgs, flag: char, value: string, rest: seq<string>)
    requires flag in known.valueFlags && flag !in known.boolFlags && value != ""
    ensures ReadCluster(known, parsed, [flag] + value, rest) == ReadCluster(known, parsed, [flag], [value] + rest)
  {
    assert ([flag] + value)[1..] == value && ([flag] + value)[..0] == [flag][..0] == "";
    assert [flag][1..] == "" && ([value] + rest)[1..] == rest;
  }

  lemma ParseFlag(known: Known, parsed: ParsedArgs, flag: char, rest: seq<string>)
    requires known.Valid() && flag in known.boolFlags
    ensures ParseFrom(known, parsed, ["-" + [flag]] + rest) == ParseFrom(known, parsed.AddFlags({flag}), rest)
  {
    OptionArg([flag]);
    ParseHead(known, parsed, "-" + [flag], rest);
    ReadFlag(known, parsed, flag, rest);
  }

  lemma ParseCons(known: Known, parsed: ParsedArgs, flag: char, tail: string, rest: seq<string>)
    requires known.Valid() && flag in known.boolFlags && Recognized(known, tail)
    ensures ParseFrom(known, parsed, ["-" + ([flag] + tail)] + rest)
         == ParseFrom(known, parsed.AddFlags({flag}), ["-" + tail] + rest)
  {
    OptionArg([flag] + tail);
    OptionArg(tail);
    ParseHead(known, parsed, "-" + ([flag] + tail), rest);
    ParseHead(known, parsed.AddFlags({flag}), "-" + tail, rest);
    ReadCons(known, parsed, flag, tail, rest);
  }

  lemma ParseAttached(known: Known, parsed: ParsedArgs, flag: char, value: string, rest: seq<string>)
    requires known.Valid() && flag in known.valueFlags && flag !in known.boolFlags && value != ""
    ensures ParseFrom(known, parsed, ["-" + ([flag] + value)] + rest)
         == ParseFrom(known, parsed, ["-" + [flag]] + ([value] + rest))
  {
    OptionArg([flag] + value);
    OptionArg([flag]);
    ParseHead(known, parsed, "-" + ([flag] + value), rest);
    ParseHead(known, parsed, "-" + [flag], [value] + rest);
    ReadAttached(known, parsed, flag, value, rest);
  }

  /** A recognized cluster parses exactly as its options written one by one, whatever surrounds it. */
  lemma {:induction false} ClusterIsSeparated(known: Known, parsed: ParsedArgs, cluster: string, rest: seq<string>)
    requires known.Valid() && Recognized(known, cluster)
    ensures ParseFrom(known, parsed, ["-" + cluster] + rest)
        == ParseFrom(known, parsed, Separated(known, cluster) + rest)
    decreases |cluster|
  {
    hide ParseFrom, Head, ReadCluster;
    if |cluster| == 1 {
      assert cluster == [cluster[0]];
      assert Separated(known, cluster) == ["-" + cluster];
    } else if cluster[0] in known.boolFlags {
      ParseFlag(known, parsed, cluster[0], Separated(known, cluster[1..]) + rest);
      ParseCons(known, parsed, cluster[0], cluster[1..], rest);
      ClusterIsSeparated(known, parsed.AddFlags({cluster[0]}), cluster[1..], rest);
      assert cluster == [cluster[0]] + cluster[1..];
      assert Separated(known, cluster) + rest == ["-" + [cluster[0]]] + (Separated(known, cluster[1..]) + rest);
    } else {
      ParseAttached(known, parsed, cluster[0], cluster[1..], rest);
      assert cluster == [cluster[0]] + cluster[1..];
      assert Separated(known, cluster) + rest == ["-" + [cluster[0]]] + ([cluster[1..]] + rest);
    }
  }

  /** In every context where an argument is read as an option, a cluster may be separated. */
  lemma ClustersAreShorthand(known: Known, context: seq<string>, cluster: string, rest: seq<string>)
    requires known.Valid() && Recognized(known, cluster) && Complete(known, context)
    ensures ParseFrom(known, EMPTY, context + ["-" + cluster] + rest)
         == ParseFrom(known, EMPTY, context + Separated(known, cluster) + rest)
  {
    assert context + ["-" + cluster] + rest == context + (["-" + cluster] + rest);
    assert context + Separated(known, cluster) + rest == context + (Separated(known, cluster) + rest);
    ParseConcat(known, EMPTY, context, ["-" + cluster] + rest);
    ParseConcat(known, EMPTY, context, Separated(known, cluster) + rest);
    ClusterIsSeparated(known, ParseFrom(known, EMPTY, context), cluster, rest);
  }

  // Unknown options

  lemma HeadAdds(known: Known, parsed: ParsedArgs, arg: string, rest: seq<string>)
    ensures Head(known, parsed, arg, rest).1 == Head(known, EMPTY, arg, rest).1
    ensures Head(known, parsed, arg, rest).0.positional
         == parsed.positional + Head(known, EMPTY, arg, rest).0.positional
    ensures Head(known, parsed, arg, rest).0.flags == parsed.flags + Head(known, EMPTY, arg, rest).0.flags
    ensures forall flag ::
      Head(known, parsed, arg, rest).0.All(flag) == parsed.All(flag) + Head(known, EMPTY, arg, rest).0.All(flag)
  {
    assert parsed.positional + [] == parsed.positional;
  }

  /** Everything found in the first arguments, then everything found in the others. */
  ghost predicate Joins(result: ParsedArgs, first: ParsedArgs, second: ParsedArgs) {
    && result.positional == first.positional + second.positional
    && result.flags == first.flags + second.flags
    && forall flag :: result.All(flag) == first.All(flag) + second.All(flag)
  }

  lemma JoinsAssoc(result: ParsedArgs, a: ParsedArgs, b: ParsedArgs, c: ParsedArgs, ab: ParsedArgs, bc: ParsedArgs)
    requires Joins(ab, a, b) && Joins(bc, b, c) && Joins(result, ab, c)
    ensures Joins(result, a, bc)
  {
    forall flag ensures result.All(flag) == a.All(flag) + bc.All(flag) {
      assert ab.All(flag) == a.All(flag) + b.All(flag) && bc.All(flag) == b.All(flag) + c.All(flag);
      Assoc(a.All(flag), b.All(flag), c.All(flag));
    }
    Assoc(a.positional, b.positional, c.positional);
  }

  lemma JoinsEmpty(parsed: ParsedArgs)
    ensures Joins(parsed, parsed, EMPTY)
  {
    assert parsed.positional + [] == parsed.positional;
    assert forall flag :: parsed.All(flag) + [] == parsed.All(flag);
  }

  /** What arguments add depends on them alone, not on what was parsed before: positionals, flags and values. */
  lemma {:induction false} PositionalsAdd(known: Known, parsed: ParsedArgs, args: seq<string>)
    ensures Joins(ParseFrom(known, parsed, args), parsed, ParseFrom(known, EMPTY, args))
    decreases |args|
  {
    if args == [] {
      JoinsEmpty(parsed);
    } else if args[0] == "--" {
      TerminatorAdds(parsed, args[1..]);
    } else {
      HeadAdds(known, parsed, args[0], args[1..]);
      var (next, left) := Head(known, parsed, args[0], args[1..]);
      var (nextEmpty, leftEmpty) := Head(known, EMPTY, args[0], args[1..]);
      hide Head, Joins;
      PositionalsAdd(known, next, left);
      PositionalsAdd(known, nextEmpty, left);
      JoinsNext(parsed, next, nextEmpty);
      JoinsAssoc(ParseFrom(known, parsed, args), parsed, nextEmpty, ParseFrom(known, EMPTY, left),
        next, ParseFrom(known, EMPTY, args));
    }
  }

  lemma JoinsNext(parsed: ParsedArgs, next: ParsedArgs, nextEmpty: ParsedArgs)
    requires next.positional == parsed.positional + nextEmpty.positional && next.flags == parsed.flags + nextEmpty.flags
    requires forall flag :: next.All(flag) == parsed.All(flag) + nextEmpty.All(flag)
    ensures Joins(next, parsed, nextEmpty)
  {
  }

  lemma TerminatorAdds(parsed: ParsedArgs, rest: seq<string>)
    ensures Joins(parsed.AddPositional(rest), parsed, EMPTY.AddPositional(rest))
  {
    assert [] + rest == rest;
    assert forall flag :: parsed.All(flag) + [] == parsed.All(flag);
  }

  /** Not an option: empty, a dash, without a dash in front, or with two in front and more after them. */
  predicate Plain(arg: string) {
    arg == "" || arg == "-" || arg[0] != '-' || (|arg| > 2 && arg[1] == '-')
  }

  lemma PlainIsPositional(arg: string)
    requires Plain(arg)
    ensures IsPositional(arg) && arg != "--"
  {
    if |arg| > 2 && arg[0] == '-' {
      assert arg[..2] == [arg[0], arg[1]];
    }
  }

  /** An argument that is no option is a positional, in its place, and nothing else. */
  lemma PositionalStays(known: Known, context: seq<string>, arg: string, rest: seq<string>)
    requires Complete(known, context) && Plain(arg)
    ensures var (before, after) := (ParseFrom(known, EMPTY, context), ParseFrom(known, EMPTY, rest));
      var result := ParseFrom(known, EMPTY, context + [arg] + rest);
      && result.positional == before.positional + [arg] + after.positional
      && result.flags == before.flags + after.flags
      && forall flag :: result.All(flag) == before.All(flag) + after.All(flag)
  {
    var before := ParseFrom(known, EMPTY, context);
    assert context + [arg] + rest == context + ([arg] + rest);
    ParseConcat(known, EMPTY, context, [arg] + rest);
    PlainIsPositional(arg);
    ParseHead(known, before, arg, rest);
    assert Head(known, before, arg, rest) == (before.AddPositional([arg]), rest);
    PositionalsAdd(known, before.AddPositional([arg]), rest);
  }

  /** An option with an unknown character survives whole as a positional, in its place; and yet the flags before
      that character are set. */
  lemma UnknownOptionSurvives(known: Known, context: seq<string>, cluster: string, rest: seq<string>)
    requires Complete(known, context) && cluster != "" && cluster[0] != '-' && !Recognized(known, cluster)
    ensures ParseFrom(known, EMPTY, context + ["-" + cluster] + rest).positional
         == ParseFrom(known, EMPTY, context).positional + ["-" + cluster] + ParseFrom(known, EMPTY, rest).positional
    ensures ParseFrom(known, EMPTY, context + ["-" + cluster] + rest).flags
         == ParseFrom(known, EMPTY, context).flags + Chars(cluster[..Leading(known, cluster)])
            + ParseFrom(known, EMPTY, rest).flags
  {
    var before := ParseFrom(known, EMPTY, context);
    assert context + ["-" + cluster] + rest == context + (["-" + cluster] + rest);
    ParseConcat(known, EMPTY, context, ["-" + cluster] + rest);
    OptionArg(cluster);
    ParseHead(known, before, "-" + cluster, rest);
    PositionalsAdd(known, Head(known, before, "-" + cluster, rest).0, rest);
  }

  // Printing options

  datatype Opt = Flag(flag: char) | Valued(flag: char, value: string) | Word(arg: string)

  predicate Printable(known: Known, option: Opt) {
    match option
    case Flag(flag) => flag in known.boolFlags
    case Valued(flag, _) => flag in known.valueFlags && flag !in known.boolFlags
    case Word(arg) => Plain(arg)
  }

  /** Options and words, one after the other; a tail of positionals comes after `--`. */
  function Print(options: seq<Opt>, tail: Option<seq<string>>): seq<string> {
    if options == [] then (if tail.Some? then ["--"] + tail.value else [])
    else match options[0]
      case Flag(flag) => ["-" + [flag]] + Print(options[1..], tail)
      case Valued(flag, value) => ["-" + [flag]] + ([value] + Print(options[1..], tail))
      case Word(arg) => [arg] + Print(options[1..], tail)
  }

  function FlagsOf(options: seq<Opt>): set<char> {
    set i | 0 <= i < |options| && options[i].Flag? :: options[i].flag
  }

  function ValuesOf(options: seq<Opt>, flag: char): seq<string> {
    if options == [] then []
    else
      (if options[0].Valued? && options[0].flag == flag then [options[0].value] else []) + ValuesOf(options[1..], flag)
  }

  function WordsOf(options: seq<Opt>): seq<string> {
    if options == [] then []
    else (if options[0].Word? then [options[0].arg] else []) + WordsOf(options[1..])
  }

  lemma CharsCons(c: char, text: string)
    ensures Chars([c] + text) == {c} + Chars(text)
  {
    assert ([c] + text)[0] == c;
    assert forall i | 0 <= i < |text| :: ([c] + text)[i + 1] == text[i];
  }

  lemma ParseValued(known: Known, parsed: ParsedArgs, flag: char, value: string, rest: seq<string>)
    requires known.Valid() && flag in known.valueFlags && flag !in known.boolFlags
    ensures ParseFrom(known, parsed, ["-" + [flag]] + ([value] + rest))
        == ParseFrom(known, parsed.AddValue(flag, value), rest)
  {
    OptionArg([flag]);
    ParseHead(known, parsed, "-" + [flag], [value] + rest);
    assert [flag][1..] == "" && [flag][..0] == "" && ([value] + rest)[1..] == rest;
    assert parsed.flags + Chars("") == parsed.flags;
  }

  /** What parsing printed options adds to `parsed`. */
  ghost predicate Adds(parsed: ParsedArgs, options: seq<Opt>, tail: Option<seq<string>>, result: ParsedArgs) {
    && result.flags == parsed.flags + FlagsOf(options)
    && result.positional == parsed.positional + WordsOf(options) + tail.GetOr([])
    && (forall flag :: result.All(flag) == parsed.All(flag) + ValuesOf(options, flag))
  }

  lemma FlagAdds(parsed: ParsedArgs, options: seq<Opt>, tail: Option<seq<string>>, result: ParsedArgs)
    requires options != [] && options[0].Flag?
    requires Adds(parsed.AddFlags({options[0].flag}), options[1..], tail, result)
    ensures Adds(parsed, options, tail, result)
  {
    assert FlagsOf(options) == {options[0].flag} + FlagsOf(options[1..]);
    assert [] + WordsOf(options[1..]) == WordsOf(options[1..]);
  }

  lemma WordAdds(parsed: ParsedArgs, options: seq<Opt>, tail: Option<seq<string>>, result: ParsedArgs)
    requires options != [] && options[0].Word?
    requires Adds(parsed.AddPositional([options[0].arg]), options[1..], tail, result)
    ensures Adds(parsed, options, tail, result)
  {
    assert FlagsOf(options) == FlagsOf(options[1..]);
    Regroup(parsed.positional, options[0].arg, WordsOf(options[1..]));
    assert forall flag :: [] + ValuesOf(options[1..], flag) == ValuesOf(options[1..], flag);
  }

  lemma ValueAdds(parsed: ParsedArgs, options: seq<Opt>, tail: Option<seq<string>>, result: ParsedArgs)
    requires options != [] && options[0].Valued?
    requires Adds(parsed.AddValue(options[0].flag, options[0].value), options[1..], tail, result)
    ensures Adds(parsed, options, tail, result)
  {
    assert [] + WordsOf(options[1..]) == WordsOf(options[1..]);
    hide ValuesOf;
    assert FlagsOf(options) == FlagsOf(options[1..]);
    var next := parsed.AddValue(options[0].flag, options[0].value);
    forall flag
      ensures result.All(flag) == parsed.All(flag) + ValuesOf(options, flag)
    {
      ValuesStep(options, flag);
      assert result.All(flag) == next.All(flag) + ValuesOf(options[1..], flag);
      if flag == options[0].flag {
        assert next.All(flag) == parsed.All(flag) + [options[0].value];
        Regroup(parsed.All(flag), options[0].value, ValuesOf(options[1..], flag));
      }
    }
  }

  lemma Regroup(before: seq<string>, value: string, after: seq<string>)
    ensures before + [value] + after == before + ([value] + after)
  {
  }

  lemma ValuesStep(options: seq<Opt>, flag: char)
    requires options != [] && options[0].Valued?
    ensures ValuesOf(options, flag)
         == if options[0].flag == flag then [options[0].value] + ValuesOf(options[1..], flag)
            else ValuesOf(options[1..], flag)
  {
  }

  lemma ParseWord(known: Known, parsed: ParsedArgs, arg: string, rest: seq<string>)
    requires Plain(arg)
    ensures ParseFrom(known, parsed, [arg] + rest) == ParseFrom(known, parsed.AddPositional([arg]), rest)
  {
    PlainIsPositional(arg);
    ParseHead(known, parsed, arg, rest);
  }

  lemma TailAdds(known: Known, parsed: ParsedArgs, tail: Option<seq<string>>)
    ensures Adds(parsed, [], tail, ParseFrom(known, parsed, Print([], tail)))
  {
    if tail.Some? {
      assert (["--"] + tail.value)[1..] == tail.value;
    }
    assert parsed.positional + [] == parsed.positional;
    assert forall flag :: parsed.All(flag) + [] == parsed.All(flag);
  }

  /** Parsing inverts printing: the flags, each option's values in order, and the positionals in order, whether
      they stand between the options or after `--`. */
  lemma {:induction false} ParseReadsPrinted(known: Known, parsed: ParsedArgs, options: seq<Opt>,
          tail: Option<seq<string>>)
    requires known.Valid() && forall i | 0 <= i < |options| :: Printable(known, options[i])
    ensures Adds(parsed, options, tail, ParseFrom(known, parsed, Print(options, tail)))
    decreases |options|
  {
    if options == [] {
      TailAdds(known, parsed, tail);
    } else {
      hide Adds, ParseFrom, Plain;
      var rest := Print(options[1..], tail);
      match options[0] {
        case Flag(flag) =>
          ParseFlag(known, parsed, flag, rest);
          ParseReadsPrinted(known, parsed.AddFlags({flag}), options[1..], tail);
          FlagAdds(parsed, options, tail, ParseFrom(known, parsed, Print(options, tail)));
        case Valued(flag, value) =>
          ParseValued(known, parsed, flag, value, rest);
          ParseReadsPrinted(known, parsed.AddValue(flag, value), options[1..], tail);
          ValueAdds(parsed, options, tail, ParseFrom(known, parsed, Print(options, tail)));
        case Word(arg) =>
          ParseWord(known, parsed, arg, rest);
          ParseReadsPrinted(known, parsed.AddPositional([arg]), options[1..], tail);
          WordAdds(parsed, options, tail, ParseFrom(known, parsed, Print(options, tail)));
      }
    }
  }
}
