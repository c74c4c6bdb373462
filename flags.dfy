/** The command line's short-flag expander (`-abc` becomes `-a -b -c`,
    `-ab=v` becomes `-a -b=v`) and the check of the three global settings. */
module Flags {
  import opened Results

  datatype FlagError =
    | EqualsAfterDash          // "invalid input with '-' and '=' flag"
    | InvalidFlagChar(c: char) // "invalid input <c> in flag"

  /** The character class [a-zA-Z]. */
  predicate IsLetter(c: char) {
    ('a' <= c <= 'z') || ('A' <= c <= 'Z')
  }

  /** An argument that starts with "-" but not "--" and is longer than "-". */
  predicate IsShortCluster(arg: string) {
    |arg| > 1 && arg[0] == '-' && arg[1] != '-'
  }

  /** Length of the longest prefix of ASCII letters. */
  function LetterRun(s: string): (k: nat)
    ensures k <= |s|
    ensures forall j :: 0 <= j < k ==> IsLetter(s[j])
    ensures k < |s| ==> !IsLetter(s[k])
  {
    if s == [] || !IsLetter(s[0]) then 0 else 1 + LetterRun(s[1..])
  }

  /** One flag "-c" per letter c, in order. */
  function Singles(letters: string): (flags: seq<string>)
    ensures |flags| == |letters|
    ensures forall i :: 0 <= i < |letters| ==> flags[i] == ['-', letters[i]]
  {
    seq(|letters|, i requires 0 <= i < |letters| => ['-', letters[i]])
  }

  /** The flags that the text after the dash of a short-flag cluster expands to:
      its letters one by one; a '=' ends the cluster and the rest of the argument,
      '=' included, is glued to the last letter's flag; anything else is an error. */
  function ExpandCluster(body: string): Result<seq<string>, FlagError> {
    var k := LetterRun(body);
    if k == |body| then Ok(Singles(body))
    else if body[k] == '=' then
      if k == 0 then Err(EqualsAfterDash)
      else Ok(Singles(body[..k - 1]) + [['-', body[k - 1]] + body[k..]])
    else Err(InvalidFlagChar(body[k]))
  }

  /** What one argument contributes: a short-flag cluster is expanded, anything else is copied. */
  function ExpandArg(arg: string): Result<seq<string>, FlagError> {
    if IsShortCluster(arg) then ExpandCluster(arg[1..]) else Ok([arg])
  }

  /** The arguments expanded left to right; the first error ends the parse. */
  function ExpandArgs(args: seq<string>): Result<seq<string>, FlagError> {
    if args == [] then Ok([])
    else
      match ExpandArgs(args[..|args| - 1])
      case Err(e) => Err(e)
      case Ok(done) =>
        match ExpandArg(args[|args| - 1])
        case Err(e) => Err(e)
        case Ok(flags) => Ok(done + flags)
  }

  /** parseArgs: arguments are appended to `result` one by one; a short-flag
      cluster is expanded by the inner loop below. */
  method ParseArgs(args: seq<string>) returns (r: Result<seq<string>, FlagError>)
    ensures r == ExpandArgs(args)
  {
    var result: seq<string> := [];
    for n := 0 to |args|
      invariant ExpandArgs(args[..n]) == Ok(result)
    {
      var arg := args[n];
      assert args[..n + 1][..n] == args[..n];
      assert args[..n + 1][n] == arg;
      if |arg| >= 1 && arg[0] == '-' && !(|arg| >= 2 && arg[1] == '-') && |arg| > 1 {
        var expanded := AppendCluster(result, arg);
        if expanded.Err? {
          ErrPropagates(args[..n + 1], args[n + 1..], expanded.error);
          assert args[..n + 1] + args[n + 1..] == args;
          return expanded;
        }
        result := expanded.value;
      } else {
        result := result + [arg];
      }
    }
    assert args[..|args|] == args;
    r := Ok(result);
  }

  /** The inner loop of parseArgs over the characters after the dash: letters are
      appended as flags, a '=' rewrites the last flag and stops, anything else fails. */
  method AppendCluster(result: seq<string>, arg: string) returns (r: Result<seq<string>, FlagError>)
    requires IsShortCluster(arg)
    ensures ExpandArg(arg).Err? ==> r == Err(ExpandArg(arg).error)
    ensures ExpandArg(arg).Ok? ==> r == Ok(result + ExpandArg(arg).value)
  {
    var out := result;
    var body := arg[1..];
    var i := 0;
    while i < |body|
      invariant 0 <= i <= |body|
      invariant forall j :: 0 <= j < i ==> IsLetter(body[j])
      invariant out == result + Singles(body[..i])
    {
      var c := body[i];
      if c == '=' {
        assert LetterRun(body) == i;
        if i < 1 {
          return Err(EqualsAfterDash);
        }
        ghost var init := result + Singles(body[..i - 1]);
        assert Singles(body[..i]) == Singles(body[..i - 1]) + [['-', body[i - 1]]];
        assert out == init + [['-', body[i - 1]]];
        out := out[|out| - 1 := out[|out| - 1] + arg[i + 1..]];
        assert arg[i + 1..] == body[i..];
        assert out == init + [['-', body[i - 1]] + body[i..]];
        assert ExpandArg(arg) == Ok(Singles(body[..i - 1]) + [['-', body[i - 1]] + body[i..]]);
        assert init + [['-', body[i - 1]] + body[i..]] == result + (Singles(body[..i - 1]) + [['-', body[i - 1]] + body[i..]]);
        return Ok(out);
      } else if IsLetter(c) {
        assert Singles(body[..i + 1]) == Singles(body[..i]) + [['-', c]];
        out := out + [['-', c]];
      } else {
        assert LetterRun(body) == i;
        return Err(InvalidFlagChar(c));
      }
      i := i + 1;
    }
    assert body[..i] == body;
    assert LetterRun(body) == |body|;
    return Ok(out);
  }

  /** Once the expansion of a prefix fails, later arguments do not change the error. */
  lemma {:induction false} ErrPropagates(a: seq<string>, b: seq<string>, e: FlagError)
    requires ExpandArgs(a) == Err(e)
    ensures ExpandArgs(a + b) == Err(e)
    decreases |b|
  {
    if b == [] {
      assert a + b == a;
    } else {
      ErrPropagates(a, b[..|b| - 1], e);
      assert (a + b)[..|a + b| - 1] == a + b[..|b| - 1];
    }
  }

  /** Expansion is argument-wise: expanding a concatenation concatenates the expansions. */
  lemma {:induction false} ExpandArgsConcat(a: seq<string>, b: seq<string>)
    requires ExpandArgs(a).Ok? && ExpandArgs(b).Ok?
    ensures ExpandArgs(a + b) == Ok(ExpandArgs(a).value + ExpandArgs(b).value)
    decreases |b|
  {
    if b == [] {
      assert a + b == a;
      assert ExpandArgs(a).value + ExpandArgs(b).value == ExpandArgs(a).value + [];
      assert ExpandArgs(a).value + [] == ExpandArgs(a).value;
    } else {
      var b' := b[..|b| - 1];
      assert ExpandArgs(b').Ok? && ExpandArg(b[|b| - 1]).Ok?;
      assert ExpandArgs(b).value == ExpandArgs(b').value + ExpandArg(b[|b| - 1]).value;
      assert (a + b)[..|a + b| - 1] == a + b';
      assert (a + b)[|a + b| - 1] == b[|b| - 1];
      ExpandArgsConcat(a, b');
      var x, y, z := ExpandArgs(a).value, ExpandArgs(b').value, ExpandArg(b[|b| - 1]).value;
      assert ExpandArgs(a + b) == Ok(x + y + z);
      assert x + y + z == x + (y + z);
    }
  }

  /** A failing argument makes the whole parse fail, wherever it stands. */
  lemma {:induction false} FailingArgFailsParse(args: seq<string>, i: nat)
    requires i < |args| && ExpandArg(args[i]).Err?
    ensures ExpandArgs(args).Err?
  {
    var pre := args[..i + 1];
    assert pre[..i] == args[..i] && pre[i] == args[i];
    if ExpandArgs(args[..i]).Ok? {
      assert ExpandArgs(pre) == Err(ExpandArg(args[i]).error);
    } else {
      ErrPropagates(args[..i], [args[i]], ExpandArgs(args[..i]).error);
      assert args[..i] + [args[i]] == pre;
    }
    ErrPropagates(pre, args[i + 1..], ExpandArgs(pre).error);
    assert pre + args[i + 1..] == args;
  }

  /** Without a short-flag cluster the output is the input. */
  lemma {:induction false} NoClusterIsIdentity(args: seq<string>)
    requires forall i :: 0 <= i < |args| ==> !IsShortCluster(args[i])
    ensures ExpandArgs(args) == Ok(args)
  {
    if args != [] {
      NoClusterIsIdentity(args[..|args| - 1]);
      assert args[..|args| - 1] + [args[|args| - 1]] == args;
    }
  }

  /** When a concatenation expands, so do both of its parts. */
  lemma OkParts(a: seq<string>, b: seq<string>)
    requires ExpandArgs(a + b).Ok?
    ensures ExpandArgs(a).Ok? && ExpandArgs(b).Ok?
  {
    if ExpandArgs(a).Err? {
      ErrPropagates(a, b, ExpandArgs(a).error);
    }
    if ExpandArgs(b).Err? {
      ExpandPostErr(a, b);
    }
  }

  /** An argument that is not a short-flag cluster is copied unchanged, in place. */
  lemma CopiedInPlace(pre: seq<string>, arg: string, post: seq<string>)
    requires !IsShortCluster(arg)
    requires ExpandArgs(pre + [arg] + post).Ok?
    ensures ExpandArgs(pre).Ok? && ExpandArgs(post).Ok?
    ensures ExpandArgs(pre + [arg] + post).value == ExpandArgs(pre).value + [arg] + ExpandArgs(post).value
  {
    OkParts(pre + [arg], post);
    OkParts(pre, [arg]);
    ExpandArgsConcat(pre, [arg]);
    assert ExpandArgs([arg]) == Ok([arg]) by {
      assert [arg][..0] == [];
      assert [] + [arg] == [arg];
    }
    ExpandArgsConcat(pre + [arg], post);
  }

  /** A failing suffix makes the whole expansion fail. */
  lemma {:induction false} ExpandPostErr(pre: seq<string>, post: seq<string>)
    requires ExpandArgs(post).Err?
    ensures ExpandArgs(pre + post).Err?
    decreases |post|
  {
    var last := post[|post| - 1];
    var init := post[..|post| - 1];
    assert (pre + post)[..|pre + post| - 1] == pre + init;
    assert (pre + post)[|pre + post| - 1] == last;
    if ExpandArgs(init).Err? {
      ExpandPostErr(pre, init);
    }
  }

  /** A cluster of letters only, "-abc", expands to "-a", "-b", "-c". */
  lemma LettersExpand(letters: string)
    requires |letters| >= 1 && forall i :: 0 <= i < |letters| ==> IsLetter(letters[i])
    ensures ExpandArg(['-'] + letters) == Ok(Singles(letters))
  {
    assert (['-'] + letters)[1..] == letters;
    assert LetterRun(letters) == |letters|;
  }

  /** "-=..." is an error: '=' right after the dash. */
  lemma EqualsFirstFails(rest: string)
    ensures ExpandArg("-=" + rest) == Err(EqualsAfterDash)
  {
    var arg := "-=" + rest;
    assert arg[1..] == "=" + rest;
    assert LetterRun(arg[1..]) == 0;
  }

  /** "-ab=v" gives "-a", "-b=v": the text from '=' on is appended to the last flag,
      and nothing after the '=' is examined. */
  lemma EqualsGluedToLastFlag(letters: string, value: string)
    requires |letters| >= 1 && forall i :: 0 <= i < |letters| ==> IsLetter(letters[i])
    ensures var last := letters[|letters| - 1];
      ExpandArg(['-'] + letters + ['='] + value)
        == Ok(Singles(letters[..|letters| - 1]) + [['-', last, '='] + value])
  {
    var body := letters + ['='] + value;
    assert (['-'] + letters + ['='] + value)[1..] == body;
    assert forall j :: 0 <= j < |letters| ==> body[j] == letters[j];
    assert body[|letters|] == '=';
    assert LetterRun(body) == |letters|;
    assert body[..|letters| - 1] == letters[..|letters| - 1];
    assert body[|letters|..] == ['='] + value;
    assert ['-', letters[|letters| - 1]] + (['='] + value) == ['-', letters[|letters| - 1], '='] + value;
  }

  /** A character other than a letter or '=' fails the argument, e.g. "-a1", "-a-b" or "-ä"
      (a '-' right after the dash makes a long option, which is copied). */
  lemma OtherCharFails(letters: string, c: char, rest: string)
    requires forall i :: 0 <= i < |letters| ==> IsLetter(letters[i])
    requires !IsLetter(c) && c != '=' && (c != '-' || letters != [])
    ensures ExpandArg(['-'] + letters + [c] + rest) == Err(InvalidFlagChar(c))
  {
    var arg := ['-'] + letters + [c] + rest;
    var body := letters + [c] + rest;
    assert arg[1..] == body;
    assert forall j :: 0 <= j < |letters| ==> body[j] == letters[j];
    assert body[|letters|] == c;
    assert LetterRun(body) == |letters|;
    if letters == [] {
      assert arg[1] == c;
    } else {
      assert arg[1] == letters[0];
    }
  }

  datatype ArgError =
    | MissingRancherUrl  // "Invalid arguments 'rancher-url'"
    | MissingCluster     // "Invalid arguments 'cluster'"
    | MissingToken       // "Invalid arguments 'token'"

  /** checkArgs, with the three settings passed in: the first empty one, in the order
      rancher-url, cluster, token, is reported. */
  function CheckArgs(rancherUrl: string, cluster: string, token: string): (r: Option<ArgError>)
    ensures r == None <==> rancherUrl != "" && cluster != "" && token != ""
    ensures r == Some(MissingRancherUrl) <==> rancherUrl == ""
    ensures r == Some(MissingCluster) <==> rancherUrl != "" && cluster == ""
    ensures r == Some(MissingToken) <==> rancherUrl != "" && cluster != "" && token == ""
  {
    if rancherUrl == "" then Some(MissingRancherUrl)
    else if cluster == "" then Some(MissingCluster)
    else if token == "" then Some(MissingToken)
    else None
  }
}
