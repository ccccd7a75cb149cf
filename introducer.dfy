/** The introducer: a name becomes the sentence "My name is <name>.", and the
    introduction joins a greeting and that sentence with one space. The greeting
    comes from the greeter component, which is not part of this model; it is a
    parameter here, so every property below holds for every greeting.
 */
module Introducer {
  import opened FormatString

  /** The format strings of the two operations, as literals. */
  const IdentityFormat: string := "My name is {}."
  const IntroductionFormat: string := "{} {}"

  /** The literal text the identity sentence starts with (11 characters). */
  const IdentityPrefix: string := "My name is "

  /** Formatting the identity format string always succeeds and inserts the name verbatim. */
  lemma IdentityFormatExpands(name: string)
    ensures Format(IdentityFormat, [name]) == Some(IdentityPrefix + name + ".")
  {
    assert IdentityFormat == IdentityPrefix + ("{}" + ".");
    assert NoBraces(IdentityPrefix);
    FormatLiteralPrefix(IdentityPrefix, "{}" + ".", [name]);
    FormatFieldPrefix(".", name, []);
    assert [name] + [] == [name];
    FormatLiteralPrefix(".", [], []);
    assert "." + [] == ".";
    assert IdentityPrefix + (name + ".") == IdentityPrefix + name + ".";
  }

  /** Formatting the introduction format string always succeeds and joins its two
      arguments with one space. */
  lemma IntroductionFormatExpands(greeting: string, sentence: string)
    ensures Format(IntroductionFormat, [greeting, sentence]) == Some(greeting + " " + sentence)
  {
    assert IntroductionFormat == "{}" + (" " + ("{}" + []));
    FormatFieldPrefix(" " + ("{}" + []), greeting, [sentence]);
    assert [greeting] + [sentence] == [greeting, sentence];
    assert NoBraces(" ");
    FormatLiteralPrefix(" ", "{}" + [], [sentence]);
    FormatFieldPrefix([], sentence, []);
    assert [sentence] + [] == [sentence];
    assert "{}" + [] == "{}";
    assert sentence + [] == sentence;
    assert greeting + (" " + sentence) == greeting + " " + sentence;
  }

  /** The identity sentence: the name, verbatim, between "My name is " and ".". */
  function InternalFunction(name: string): (r: string)
    ensures r == IdentityPrefix + name + "."
  {
    IdentityFormatExpands(name);
    Format(IdentityFormat, [name]).value
  }

  /** The introduction: the greeting, exactly one space, then the identity sentence. */
  function Introduce(greeting: string, name: string): (r: string)
    ensures r == greeting + " " + InternalFunction(name)
  {
    var sentence := InternalFunction(name);
    IntroductionFormatExpands(greeting, sentence);
    Format(IntroductionFormat, [greeting, sentence]).value
  }

  /** The identity sentence is 12 characters longer than the name, starts with
      the fixed prefix, holds the name verbatim at offsets 11 to 11 + |name|,
      and ends with a period. */
  lemma InternalFunctionLayout(name: string)
    ensures |InternalFunction(name)| == |name| + 12
    ensures InternalFunction(name)[..11] == IdentityPrefix
    ensures InternalFunction(name)[11..11 + |name|] == name
    ensures InternalFunction(name)[|name| + 11] == '.'
  {
    assert |IdentityPrefix| == 11;
  }

  /** The empty name gives exactly "My name is .". */
  lemma InternalFunctionEmpty()
    ensures InternalFunction("") == "My name is ."
  {
  }

  /** Braces inside the name are not replacement fields: they come out unchanged. */
  lemma InternalFunctionBracesVerbatim()
    ensures InternalFunction("{}") == "My name is {}."
    ensures InternalFunction("{") == "My name is {."
  {
  }

  /** Different names give different sentences. */
  lemma InternalFunctionInjective(a: string, b: string)
    requires InternalFunction(a) == InternalFunction(b)
    ensures a == b
  {
    InternalFunctionLayout(a);
    InternalFunctionLayout(b);
  }

  /** The separator is always there: the introduction is one character longer
      than greeting and sentence together, has a space right after the greeting,
      starts with the greeting, ends with the sentence, and so ends with '.'. */
  lemma IntroduceLayout(greeting: string, name: string)
    ensures |Introduce(greeting, name)| == |greeting| + 1 + |name| + 12
    ensures Introduce(greeting, name)[|greeting|] == ' '
    ensures Introduce(greeting, name)[..|greeting|] == greeting
    ensures Introduce(greeting, name)[|greeting| + 1..] == InternalFunction(name)
    ensures Introduce(greeting, name)[|Introduce(greeting, name)| - 1] == '.'
  {
    var s := InternalFunction(name);
    var r := Introduce(greeting, name);
    InternalFunctionLayout(name);
    assert r[|greeting| + 1..] == s;
  }

  /** For a fixed greeting, different names give different introductions. */
  lemma IntroduceInjective(greeting: string, a: string, b: string)
    requires Introduce(greeting, a) == Introduce(greeting, b)
    ensures a == b
  {
    IntroduceLayout(greeting, a);
    IntroduceLayout(greeting, b);
    InternalFunctionInjective(a, b);
  }

  /** The introduction is the greeting, a space, the identity prefix, the name and ".". */
  lemma IntroduceText(greeting: string, name: string)
    ensures Introduce(greeting, name) == greeting + " " + IdentityPrefix + name + "."
  {
  }

  /** Proof helper (sequence associativity): moves the boundary between a greeting
      and a name inside one text. */
  lemma Regroup(greeting: string, first: string, name: string)
    ensures greeting + " " + IdentityPrefix + first + "." + " " + IdentityPrefix + name + "."
         == greeting + " " + IdentityPrefix + (first + "." + " " + IdentityPrefix + name) + "."
  {
  }

  /** The introduction does not determine the greeting: a greeting that ends with
      an identity sentence gives the same text as a shorter greeting with a longer
      name that contains the sentence. */
  lemma IntroduceGreetingNotRecoverable(greeting: string, first: string, name: string)
    ensures Introduce(greeting + " " + IdentityPrefix + first + ".", name)
         == Introduce(greeting, first + "." + " " + IdentityPrefix + name)
    ensures greeting + " " + IdentityPrefix + first + "." != greeting
  {
    IntroduceText(greeting + " " + IdentityPrefix + first + ".", name);
    IntroduceText(greeting, first + "." + " " + IdentityPrefix + name);
    Regroup(greeting, first, name);
    assert |greeting + " " + IdentityPrefix + first + "."| > |greeting|;
  }

  /** An empty greeting still gets the separator. */
  lemma IntroduceEmptyGreeting()
    ensures Introduce("", "Ada") == " My name is Ada."
  {
    IntroduceText("", "Ada");
    EmptyGreetingText();
  }

  /** Proof helper (string literals): the text of the empty-greeting example. */
  lemma EmptyGreetingText()
    ensures "" + " " + IdentityPrefix + "Ada" + "." == " My name is Ada."
  {
  }

  /** A "Hello!" greeting and the name "Ada" read "Hello! My name is Ada.". */
  lemma IntroduceHelloAda()
    ensures Introduce("Hello!", "Ada") == "Hello! My name is Ada."
  {
    IntroduceText("Hello!", "Ada");
    HelloAdaText();
  }

  /** Proof helper (string literals): the text of the "Hello!" example. */
  lemma HelloAdaText()
    ensures "Hello!" + " " + IdentityPrefix + "Ada" + "." == "Hello! My name is Ada."
  {
  }

  /** `greet()` may throw in C++; its failure passes through. */
  datatype Result<T, E> = Ok(value: T) | Err(error: E)

  /** The introduction when the greeting itself may be a failure: the failure is
      passed on unchanged and no introduction is produced; otherwise the result is
      the ordinary introduction. */
  function IntroduceFallible<E>(greeting: Result<string, E>, name: string): (r: Result<string, E>)
    ensures r.Err? <==> greeting.Err?
    ensures greeting.Err? ==> r.error == greeting.error
    ensures greeting.Ok? ==> r.value == greeting.value + " " + IdentityPrefix + name + "."
  {
    match greeting
    case Err(e) => Err(e)
    case Ok(g) =>
      var text := Introduce(g, name);
      assert text == g + " " + IdentityPrefix + name + "." by {
        assert text == g + " " + (IdentityPrefix + name + ".");
      }
      Ok(text)
  }
}
