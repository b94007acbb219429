/**
  The parameter formatters `PowerShellParameter` and its subclass
  `PowerShellNamedParameter`, as one tagged value. `Value` and `Name` are
  get-only properties set by the constructor. A .NET value is never null here.
  A non-string value is represented by the text its `ToString()` returns when
  the command string is built, which depends on the object's type, its state
  at that time and the culture.
 */
module Parameters {

  /** A parameter value: a .NET `string`, or any other object with its `ToString()` text. */
  datatype Value = Str(s: string) | Other(text: string)

  /** `new PowerShellParameter(value)` or `new PowerShellNamedParameter(name, value)`. */
  datatype Parameter = Positional(value: Value) | Named(name: string, value: Value)

  /**
    `PowerShellParameter.ToString()`: a string is wrapped in single quotes with
    no escaping, anything else is its own text.
   */
  function FormatValue(v: Value): string
  {
    match v
    case Str(s) => "'" + s + "'"
    case Other(text) => text
  }

  /**
    The text a parameter contributes to the command line: the value's format,
    preceded by `-name ` for a named parameter.
   */
  function Format(p: Parameter): string
  {
    match p
    case Positional(v) => FormatValue(v)
    case Named(name, v) => "-" + name + " " + FormatValue(v)
  }

  /**
    A string value comes out between single quotes, and dropping the first and
    last character gives the string back exactly, quotes inside it included.
   */
  lemma StringIsQuoted(s: string)
    ensures var r := Format(Positional(Str(s)));
      |r| == |s| + 2 && r[0] == '\'' && r[|r| - 1] == '\'' && r[1..|r| - 1] == s
  {
  }

  /** Any other value comes out as its own text, with no quotes added. */
  lemma OtherIsVerbatim(text: string)
    ensures Format(Positional(Other(text))) == text
  {
  }

  /**
    A named parameter is `-`, its name verbatim and a space, followed by the
    positional format of the same value.
   */
  lemma NamedIsPrefixed(name: string, v: Value)
    ensures var r := Format(Named(name, v));
      |r| == |name| + 2 + |Format(Positional(v))| &&
      r[..|name| + 2] == "-" + name + " " &&
      r[|name| + 2..] == Format(Positional(v))
  {
  }

  /** A named string parameter formats as `-name 's'`. */
  lemma NamedString(name: string, s: string)
    ensures Format(Named(name, Str(s))) == "-" + name + " '" + s + "'"
  {
  }
}
