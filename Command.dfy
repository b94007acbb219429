/**
  The command-string builder `PowerShellCommand`: a script and an ordered list
  of parameters that grows by `AddArgument` and `AddParameter`. The command
  string is the script verbatim followed by `" " + param + " "` for each
  parameter in the order they were added.
 */
module Command {
  import opened Parameters

  /** The formatted parameters, one string each, in order. */
  function Formats(ps: seq<Parameter>): seq<string>
  {
    seq(|ps|, i requires 0 <= i < |ps| => Format(ps[i]))
  }

  /** The text the loop appends for formatted parameters: `" " + f + " "` for each, in order. */
  function Spaced(fs: seq<string>): string
    decreases |fs|
  {
    if fs == [] then ""
    else Spaced(fs[..|fs| - 1]) + " " + fs[|fs| - 1] + " "
  }

  /** The argument string the interpreter is started with. */
  function CommandString(script: string, ps: seq<Parameter>): string
  {
    script + Spaced(Formats(ps))
  }

  /** The sum over the formatted parameters of their length plus the two surrounding spaces. */
  function LengthSum(fs: seq<string>): nat
    decreases |fs|
  {
    if fs == [] then 0
    else LengthSum(fs[..|fs| - 1]) + |fs[|fs| - 1]| + 2
  }

  /** The strings joined with two spaces between neighbours. */
  function JoinTwoSpaces(fs: seq<string>): string
    requires fs != []
    decreases |fs|
  {
    if |fs| == 1 then fs[0]
    else JoinTwoSpaces(fs[..|fs| - 1]) + "  " + fs[|fs| - 1]
  }

  class PowerShellCommand {
    const script: string
    var parameters: seq<Parameter>
    /** The public, settable `CommandTimeoutSeconds` property. */
    var commandTimeoutSeconds: int

    constructor (script: string)
      ensures this.script == script && parameters == [] && commandTimeoutSeconds == 30
    {
      this.script := script;
      parameters := [];
      commandTimeoutSeconds := 30;
    }

    /** Appends a positional parameter. */
    method AddArgument(value: Value)
      modifies this`parameters
      ensures parameters == old(parameters) + [Positional(value)]
    {
      parameters := parameters + [Positional(value)];
    }

    /** Appends a named parameter; the value comes first, as in the source. */
    method AddParameter(value: Value, name: string)
      modifies this`parameters
      ensures parameters == old(parameters) + [Named(name, value)]
    {
      parameters := parameters + [Named(name, value)];
    }

    /** Builds the command string as the source's StringBuilder loop does. */
    method GetCommandString() returns (s: string)
      ensures s == CommandString(script, parameters)
    {
      s := script;
      for i := 0 to |parameters|
        invariant s == CommandString(script, parameters[..i])
      {
        CommandStringStep(script, parameters, i);
        s := s + " " + Format(parameters[i]) + " ";
      }
      assert parameters[..|parameters|] == parameters;
    }
  }

  /** The text of two lists one after the other is the text of each, in order. */
  lemma {:induction false} SpacedAppend(a: seq<string>, b: seq<string>)
    ensures Spaced(a + b) == Spaced(a) + Spaced(b)
    decreases |b|
  {
    if b == [] {
      assert a + b == a;
    } else {
      var ab, b', last := a + b, b[..|b| - 1], b[|b| - 1];
      assert ab[..|ab| - 1] == a + b' && ab[|ab| - 1] == last;
      calc {
        Spaced(ab);
        Spaced(a + b') + " " + last + " ";
        { SpacedAppend(a, b'); }
        Spaced(a) + Spaced(b') + " " + last + " ";
        Spaced(a) + (Spaced(b') + " " + last + " ");
        Spaced(a) + Spaced(b);
      }
    }
  }

  /** The length of the text is the sum of the formatted lengths plus two spaces each. */
  lemma {:induction false} SpacedLength(fs: seq<string>)
    ensures |Spaced(fs)| == LengthSum(fs)
    decreases |fs|
  {
    if fs != [] {
      SpacedLength(fs[..|fs| - 1]);
    }
  }

  /** With no parameters the command string is the script; otherwise the script is its prefix. */
  lemma ScriptIsPrefix(script: string, ps: seq<Parameter>)
    ensures |script| <= |CommandString(script, ps)|
    ensures CommandString(script, ps)[..|script|] == script
    ensures ps == [] ==> CommandString(script, ps) == script
  {
  }

  /** The command string's length is the script's plus each parameter's format and two spaces. */
  lemma CommandStringLength(script: string, ps: seq<Parameter>)
    ensures |CommandString(script, ps)| == |script| + LengthSum(Formats(ps))
  {
    SpacedLength(Formats(ps));
  }

  /** Adding a parameter extends the command string by `" " + format + " "` and leaves the rest. */
  lemma CommandStringAppend(script: string, ps: seq<Parameter>, p: Parameter)
    ensures CommandString(script, ps + [p]) == CommandString(script, ps) + " " + Format(p) + " "
  {
    var fs := Formats(ps + [p]);
    assert fs[..|ps|] == Formats(ps);
    assert fs[|ps|] == Format(p);
  }

  lemma CommandStringStep(script: string, ps: seq<Parameter>, i: nat)
    requires i < |ps|
    ensures CommandString(script, ps[..i + 1]) == CommandString(script, ps[..i]) + " " + Format(ps[i]) + " "
  {
    CommandStringAppend(script, ps[..i], ps[i]);
    assert ps[..i] + [ps[i]] == ps[..i + 1];
  }

  /**
    Insertion order: parameter `i`'s format, surrounded by single spaces, sits in
    the command string right after the script and the text of parameters `0..i`.
   */
  lemma ParameterAt(script: string, ps: seq<Parameter>, i: nat)
    requires i < |ps|
    ensures var o := |script| + LengthSum(Formats(ps)[..i]);
      var t := " " + Format(ps[i]) + " ";
      o + |t| <= |CommandString(script, ps)| &&
      CommandString(script, ps)[o..o + |t|] == t
  {
    var fs := Formats(ps);
    SpacedAt(fs, i);
    SliceAfter(script, Spaced(fs), LengthSum(fs[..i]), |fs[i]| + 2);
  }

  lemma SliceAfter(x: string, y: string, o: nat, n: nat)
    requires o + n <= |y|
    ensures (x + y)[|x| + o..|x| + o + n] == y[o..o + n]
  {
  }

  lemma SpacedAt(fs: seq<string>, i: nat)
    requires i < |fs|
    ensures var o := LengthSum(fs[..i]);
      var t := " " + fs[i] + " ";
      o + |t| <= |Spaced(fs)| && Spaced(fs)[o..o + |t|] == t
  {
    var f := fs[i];
    var t := " " + f + " ";
    assert fs == (fs[..i] + [f]) + fs[i + 1..];
    SpacedAppend(fs[..i] + [f], fs[i + 1..]);
    SpacedAppend(fs[..i], [f]);
    assert [f][..0] == [];
    assert Spaced([f]) == t;
    SpacedLength(fs[..i]);
    assert Spaced(fs) == Spaced(fs[..i]) + t + Spaced(fs[i + 1..]);
  }

  /**
    The same command string laid out differently: one space after the script,
    two between neighbouring parameters, one trailing space.
   */
  lemma TwoSpaceLayout(script: string, ps: seq<Parameter>)
    requires ps != []
    ensures CommandString(script, ps) == script + " " + JoinTwoSpaces(Formats(ps)) + " "
  {
    SpacedTwoSpaces(Formats(ps));
  }

  lemma {:induction false} SpacedTwoSpaces(fs: seq<string>)
    requires fs != []
    ensures Spaced(fs) == " " + JoinTwoSpaces(fs) + " "
    decreases |fs|
  {
    if |fs| == 1 {
      assert fs[..0] == [];
    } else {
      var front, last := fs[..|fs| - 1], fs[|fs| - 1];
      var j := JoinTwoSpaces(front);
      calc {
        Spaced(fs);
        Spaced(front) + " " + last + " ";
        { SpacedTwoSpaces(front); }
        (" " + j + " ") + " " + last + " ";
        { assert "  " == " " + " "; }
        " " + (j + "  " + last) + " ";
        " " + JoinTwoSpaces(fs) + " ";
      }
    }
  }

  /**
    There is no escaping: a string value holding `'  '` gives the same command
    string as the two string arguments on either side of it.
   */
  lemma NoEscaping(script: string, x: string, y: string)
    ensures CommandString(script, [Positional(Str(x + "'  '" + y))]) ==
            CommandString(script, [Positional(Str(x)), Positional(Str(y))])
  {
    var f := "'" + (x + "'  '" + y) + "'";
    var g, h := "'" + x + "'", "'" + y + "'";
    assert Formats([Positional(Str(x + "'  '" + y))]) == [f];
    assert Formats([Positional(Str(x)), Positional(Str(y))]) == [g, h];
    SpacedOne(f);
    SpacedTwo(g, h);
    QuotedJoin(x, y);
  }

  lemma SpacedOne(f: string)
    ensures Spaced([f]) == " " + f + " "
  {
    assert [f][..0] == [];
  }

  lemma SpacedTwo(g: string, h: string)
    ensures Spaced([g, h]) == " " + g + " " + " " + h + " "
  {
    assert [g, h][..1] == [g];
    SpacedOne(g);
  }

  lemma QuotedJoin(x: string, y: string)
    ensures " " + ("'" + (x + "'  '" + y) + "'") + " " ==
            " " + ("'" + x + "'") + " " + " " + ("'" + y + "'") + " "
  {
    var q, sp := "'", " ";
    assert "'  '" == q + sp + sp + q;
  }
}
