/** How a command's name is read from `command(nameAndArgs)`: once by the plugin
    loader, once by Commander. */
module CommandNames {
  import opened Wrappers
  import opened JsWhitespace

  /** `[\s<[]`. */
  predicate IsSeparator(c: char) { IsSpace(c) || c == '<' || c == '[' }

  /** The loader's reading, `split(/[\s<[]/u)[0]`. */
  function BaseName(s: string): string {
    if s == "" || IsSeparator(s[0]) then "" else [s[0]] + BaseName(s[1..])
  }

  function UntilBlank(s: string): string {
    if s == "" || s[0] == ' ' then "" else [s[0]] + UntilBlank(s[1..])
  }

  /** Commander's reading, the first group of `/([^ ]+) *(.*)/`; without a match
      the destructuring throws. */
  function RegisteredName(s: string): Option<string> {
    if s == "" then None
    else if s[0] == ' ' then RegisteredName(s[1..])
    else Some(UntilBlank(s))
  }

  predicate EndsAtBlank(s: string) {
    s == "" || s[0] == ' ' || (!IsSeparator(s[0]) && EndsAtBlank(s[1..]))
  }

  /** Not empty, no leading separator, and the first separator is a blank. */
  predicate IsWellFormed(s: string) { s != "" && !IsSeparator(s[0]) && EndsAtBlank(s) }

  lemma {:induction false} TokenAgrees(s: string)
    ensures BaseName(s) == UntilBlank(s) <==> EndsAtBlank(s)
  {
    if s != "" && s[0] != ' ' && !IsSeparator(s[0]) {
      TokenAgrees(s[1..]);
      assert BaseName(s)[1..] == BaseName(s[1..]) && UntilBlank(s)[1..] == UntilBlank(s[1..]);
    }
  }

  lemma {:induction false} RegisteredSkipsBlanks(s: string)
    ensures RegisteredName(s).Some? ==> RegisteredName(s).value != ""
  {
    if s != "" && s[0] == ' ' {
      RegisteredSkipsBlanks(s[1..]);
    }
  }

  /** The two readings agree on exactly the well-formed names. */
  lemma ReadingsAgree(s: string)
    ensures RegisteredName(s) == Some(BaseName(s)) <==> IsWellFormed(s)
    ensures IsWellFormed(s) ==> BaseName(s) != ""
  {
    TokenAgrees(s);
    RegisteredSkipsBlanks(s);
  }

  /** Both readings from the string alone: the loader's token ends before the first
      separator; Commander's starts after the leading blanks, ends before the next
      and is not empty. */
  lemma {:induction false} BaseNameExactly(s: string)
    ensures BaseName(s) <= s && forall c <- BaseName(s) :: !IsSpace(c) && c != '<' && c != '['
    ensures |BaseName(s)| < |s| ==> var c := s[|BaseName(s)|]; IsSpace(c) || c == '<' || c == '['
  {
    if s != "" && !IsSeparator(s[0]) {
      BaseNameExactly(s[1..]);
      assert BaseName(s)[1..] == BaseName(s[1..]) && s == [s[0]] + s[1..];
    }
  }

  lemma {:induction false} UntilBlankExactly(s: string)
    ensures UntilBlank(s) <= s && ' ' !in UntilBlank(s)
    ensures |UntilBlank(s)| < |s| ==> s[|UntilBlank(s)|] == ' '
  {
    if s != "" && s[0] != ' ' {
      UntilBlankExactly(s[1..]);
      assert UntilBlank(s)[1..] == UntilBlank(s[1..]) && s == [s[0]] + s[1..];
    }
  }

  lemma {:induction false} RegisteredNameExactly(s: string) returns (blanks: nat)
    ensures blanks <= |s| && forall i :: 0 <= i < blanks ==> s[i] == ' '
    ensures RegisteredName(s) == None <==> blanks == |s|
    ensures blanks < |s| ==>
      var name := RegisteredName(s).value;
      && s[blanks] != ' ' && name <= s[blanks..] && name != "" && ' ' !in name
      && (blanks + |name| < |s| ==> s[blanks + |name|] == ' ')
  {
    if s == "" {
      blanks := 0;
    } else if s[0] == ' ' {
      blanks := RegisteredNameExactly(s[1..]);
      assert forall i :: 0 <= i < blanks ==> s[i + 1] == s[1..][i];
      assert s[blanks + 1..] == s[1..][blanks..];
      blanks := blanks + 1;
    } else {
      UntilBlankExactly(s);
      blanks := 0;
      assert s[0..] == s;
    }
  }
}
