/** A small model of the part of C++20 `std::format` that the introducer uses:
    a literal format string whose replacement fields are bare `{}` with automatic
    argument indexing. Only the format string is scanned for fields; the text of
    each argument is inserted verbatim and is never scanned itself.
 */
module FormatString {

  datatype Option<T> = None | Some(value: T)

  predicate IsBrace(c: char) {
    c == '{' || c == '}'
  }

  /** True when `s` is plain literal text: it holds no replacement field and no escape. */
  predicate NoBraces(s: string) {
    forall i :: 0 <= i < |s| ==> !IsBrace(s[i])
  }

  /** Proof helper: dropping the first character keeps a text brace-free. */
  lemma NoBracesTail(s: string)
    requires s != [] && NoBraces(s)
    ensures NoBraces(s[1..])
  {
    forall i | 0 <= i < |s[1..]| ensures !IsBrace(s[1..][i]) {
      assert s[1..][i] == s[i + 1];
    }
  }

  /** Puts `s` in front of a formatted text, and keeps a malformed result malformed. */
  function Prepend(s: string, r: Option<string>): Option<string> {
    match r
    case None => None
    case Some(t) => Some(s + t)
  }

  /** Formats `args` into `fmt`. A `{}` field takes the next argument, `{{` and `}}`
      stand for a single brace, and every other character is copied unchanged.
      A brace that starts none of these, or a field with no argument left, makes
      the format string malformed (None); arguments left over are ignored. */
  function Format(fmt: string, args: seq<string>): (r: Option<string>)
    ensures NoBraces(fmt) ==> r == Some(fmt)
    decreases |fmt|
  {
    if fmt == [] then
      Some([])
    else if fmt[0] == '{' then
      if |fmt| >= 2 && fmt[1] == '{' then
        Prepend("{", Format(fmt[2..], args))
      else if |fmt| >= 2 && fmt[1] == '}' then
        if args == [] then None else Prepend(args[0], Format(fmt[2..], args[1..]))
      else
        None
    else if fmt[0] == '}' then
      if |fmt| >= 2 && fmt[1] == '}' then Prepend("}", Format(fmt[2..], args)) else None
    else
      var rest := Format(fmt[1..], args);
      assert NoBraces(fmt) ==> NoBraces(fmt[1..]) by {
        if NoBraces(fmt) { NoBracesTail(fmt); }
      }
      assert [fmt[0]] + fmt[1..] == fmt;
      Prepend([fmt[0]], rest)
  }

  /** Literal text at the head of a format string is copied to the output
      unchanged, and the rest of the format string sees the same arguments. */
  lemma {:induction false} FormatLiteralPrefix(lit: string, tail: string, args: seq<string>)
    requires NoBraces(lit)
    ensures Format(lit + tail, args) == Prepend(lit, Format(tail, args))
    decreases |lit|
  {
    if lit == [] {
      assert lit + tail == tail;
      match Format(tail, args)
      case None =>
      case Some(t) => assert lit + t == t;
    } else {
      var s := lit + tail;
      assert s[0] == lit[0] && !IsBrace(s[0]);
      assert s[1..] == lit[1..] + tail;
      NoBracesTail(lit);
      assert Format(s, args) == Prepend([lit[0]], Format(lit[1..] + tail, args));
      FormatLiteralPrefix(lit[1..], tail, args);
      match Format(tail, args)
      case None =>
      case Some(t) => assert [lit[0]] + (lit[1..] + t) == lit + t;
    }
  }

  /** A bare `{}` field at the head of a format string inserts the first argument
      verbatim and hands the remaining arguments to the rest of the format string. */
  lemma FormatFieldPrefix(tail: string, arg: string, rest: seq<string>)
    ensures Format("{}" + tail, [arg] + rest) == Prepend(arg, Format(tail, rest))
  {
    var s := "{}" + tail;
    assert s[0] == '{' && s[1] == '}' && s[2..] == tail;
    assert ([arg] + rest)[0] == arg && ([arg] + rest)[1..] == rest;
  }

  /** A field with no argument left makes the format string malformed. */
  lemma FormatMissingArgument(tail: string)
    ensures Format("{}" + tail, []) == None
  {
    var s := "{}" + tail;
    assert s[0] == '{' && s[1] == '}';
  }
}
