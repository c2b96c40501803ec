/** The text that `send-keys` types: words and named keys. */
module SendKeys {
  import opened Text

  /** The character of a named key, whatever the case of its name. */
  function SpecialKey(token: string): Option<string> {
    match Lower(token)
    case "enter" => Some("\r")
    case "c-m" => Some("\r")
    case "kpenter" => Some("\r")
    case "tab" => Some("\t")
    case "c-i" => Some("\t")
    case "space" => Some(" ")
    case "bspace" => Some("\U{7F}")
    case "backspace" => Some("\U{7F}")
    case "escape" => Some("\U{1B}")
    case "esc" => Some("\U{1B}")
    case "c-[" => Some("\U{1B}")
    case "c-c" => Some("\U{3}")
    case "c-d" => Some("\U{4}")
    case "c-z" => Some("\U{1A}")
    case "c-l" => Some("\U{C}")
    case _ => None
  }

  /** `pending` says that the last token was a word. */
  function Typed(tokens: seq<string>, pending: bool): string {
    if tokens == [] then ""
    else
      var special := SpecialKey(tokens[0]);
      if special.Some? then special.value + Typed(tokens[1..], false)
      else (if pending then " " else "") + tokens[0] + Typed(tokens[1..], true)
  }

  function KeysText(tokens: seq<string>, literal: bool): string {
    if literal then Join(tokens, " ") else Typed(tokens, false)
  }

  method SendKeysText(tokens: seq<string>, literal: bool) returns (text: string)
    ensures text == KeysText(tokens, literal)
  {
    hide SpecialKey;
    if literal { return Join(tokens, " "); }
    var pendingSpace := false;
    text := "";
    for i := 0 to |tokens|
      invariant Typed(tokens, false) == text + Typed(tokens[i..], pendingSpace)
    {
      TypedStep(text, tokens, i, pendingSpace);
      var special := SpecialKey(tokens[i]);
      if special.Some? {
        text := text + special.value;
        pendingSpace := false;
        continue;
      }
      if pendingSpace { text := text + " "; }
      text := text + tokens[i];
      pendingSpace := true;
    }
  }

  lemma TypedStep(text: string, tokens: seq<string>, i: nat, pending: bool)
    requires i < |tokens|
    ensures var special := SpecialKey(tokens[i]);
      text + Typed(tokens[i..], pending) ==
        if special.Some? then text + special.value + Typed(tokens[i + 1..], false)
        else (if pending then text + " " else text) + tokens[i] + Typed(tokens[i + 1..], true)
  {
    hide SpecialKey;
    assert tokens[i..][1..] == tokens[i + 1..];
  }

  predicate Words(tokens: seq<string>) {
    forall i | 0 <= i < |tokens| :: SpecialKey(tokens[i]).None?
  }

  /** What one token types. */
  function One(token: string, pending: bool): string {
    if SpecialKey(token).Some? then SpecialKey(token).value else (if pending then " " else "") + token
  }

  lemma TypedFirst(tokens: seq<string>, pending: bool)
    requires tokens != []
    ensures Typed(tokens, pending) == One(tokens[0], pending) + Typed(tokens[1..], SpecialKey(tokens[0]).None?)
  {
    hide SpecialKey;
  }

  lemma Regroup(a: string, b: string, c: string, d: string)
    ensures a + ((b + c) + d) == ((a + b) + c) + d
  {
  }

  lemma {:induction false} TypedConcat(a: seq<string>, special: string, b: seq<string>, pending: bool)
    requires SpecialKey(special).Some?
    ensures Typed(a + [special] + b, pending) == Typed(a, pending) + SpecialKey(special).value + Typed(b, false)
    decreases |a|
  {
    hide SpecialKey, One;
    var all := a + [special] + b;
    TypedFirst(all, pending);
    if a == [] {
      assert all[0] == special && all[1..] == b;
      OneSpecial(special, pending);
      assert Typed(a, pending) == "" && "" + SpecialKey(special).value == SpecialKey(special).value;
    } else {
      assert all[0] == a[0] && all[1..] == a[1..] + [special] + b;
      hide Typed;
      TypedFirst(a, pending);
      var next := SpecialKey(a[0]).None?;
      TypedConcat(a[1..], special, b, next);
      Regroup(One(a[0], pending), Typed(a[1..], next), SpecialKey(special).value, Typed(b, false));
    }
  }

  lemma OneSpecial(special: string, pending: bool)
    requires SpecialKey(special).Some?
    ensures One(special, pending) == SpecialKey(special).value
  {
    hide SpecialKey;
  }

  /** A named key stands between what is typed before and after it, with no blanks of its own. */
  lemma NamedKeysSeparate(a: seq<string>, special: string, b: seq<string>)
    requires SpecialKey(special).Some?
    ensures Typed(a + [special] + b, false) == Typed(a, false) + SpecialKey(special).value + Typed(b, false)
  {
    TypedConcat(a, special, b, false);
  }

  lemma {:induction false} WordsPending(tokens: seq<string>)
    requires Words(tokens) && tokens != []
    ensures Typed(tokens, false) == Join(tokens, " ") && Typed(tokens, true) == " " + Join(tokens, " ")
  {
    hide SpecialKey;
    if |tokens| > 1 {
      WordsPending(tokens[1..]);
      assert tokens[0] + (" " + Join(tokens[1..], " ")) == tokens[0] + " " + Join(tokens[1..], " ");
    } else {
      assert tokens[1..] == [];
    }
  }

  /** Words alone are typed as the literal form types them. */
  lemma {:induction false} WordsAreJoined(tokens: seq<string>)
    requires Words(tokens)
    ensures Typed(tokens, false) == Join(tokens, " ")
  {
    if tokens != [] {
      WordsPending(tokens);
    }
  }

  // The named keys

  /** The characters whose control keys are known. */
  const CONTROLS := {'m', 'i', '[', 'c', 'd', 'z', 'l'}

  /** What holding the control key makes of a character: its code modulo 32. */
  function Control(c: char): char {
    (c as int % 32) as char
  }

  lemma ControlName(name: string)
    requires |name| == 3 && name[..2] == "c-"
    ensures name == ['c', '-', name[2]]
  {
    assert name[0] == name[..2][0] && name[1] == name[..2][1];
  }

  /** `c-x` types the control code of `x`, and only for the known characters. */
  lemma ControlKeys(token: string)
    requires |Lower(token)| == 3 && Lower(token)[..2] == "c-"
    ensures var c := Lower(token)[2];
      SpecialKey(token) == if c in CONTROLS then Some([Control(c)]) else None
  {
    hide Lower;
    ControlName(Lower(token));
  }

  /** The other names stand for control keys, the blank and the delete key. */
  lemma NamedKeys(token: string)
    ensures Lower(token) in {"enter", "kpenter"} ==> SpecialKey(token) == Some([Control('m')])
    ensures Lower(token) == "tab" ==> SpecialKey(token) == Some([Control('i')])
    ensures Lower(token) in {"escape", "esc"} ==> SpecialKey(token) == Some([Control('[')])
    ensures Lower(token) == "space" ==> SpecialKey(token) == Some(" ")
    ensures Lower(token) in {"bspace", "backspace"} ==> SpecialKey(token) == Some("\U{7F}")
  {
    hide Lower;
  }

  /** Everything else is a word. */
  lemma OtherTokensAreWords(token: string)
    requires Lower(token) !in {"enter", "kpenter", "tab", "escape", "esc", "space", "bspace", "backspace"}
    requires |Lower(token)| == 3 ==> Lower(token)[..2] != "c-"
    ensures SpecialKey(token) == None
  {
    hide Lower;
  }
}
