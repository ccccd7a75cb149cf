# Introducer

This project models the module `example.Introducer` (functions `example::internal_function` and `example::introduce`), which builds text only.
`internal_function(name)` builds the identity sentence `"My name is <name>."`.
`introduce(name)` joins the greeter's `greet()` text and that sentence with exactly one space.
Both functions are single `std::format` calls over literal format strings.

The model has two modules:

- `FormatString` models the part of C++20 `std::format` these calls use.
  A bare `{}` field takes the next argument, `{{` and `}}` are escapes, and everything else in the format string is copied.
  Only the format string is scanned; argument text is inserted verbatim.
  A malformed format string gives `None`.
- `Introducer` defines `InternalFunction` and `Introduce` by formatting the source's two literal format strings.
  Their contracts state the exact output as plain concatenation, and lemmas state the layout, injectivity and concrete cases.

`greet()` belongs to the greeter module, which is not part of this model.
It is an explicit `greeting` parameter of `Introduce`, so every property holds for every greeting.
Both operations are Dafny functions, so equal inputs always give equal outputs.

## Model

| member | source | states |
|---|---|---|
| FormatString.Format | lib/Introducer/Impl.cpp:12 | defines formatting: a bare `{}` takes the next argument verbatim, `{{` and `}}` each give one brace, other text is copied, left-over arguments are ignored, and any other brace or a field with no argument left is `None`; its contract states that a format string with no braces formats to itself whatever the arguments, and `FormatLiteralPrefix` and `FormatFieldPrefix` describe the rest (also used at lib/Introducer/Impl.cpp:17) |
| FormatString.FormatLiteralPrefix | lib/Introducer/Impl.cpp:12 | literal text without braces at the head of a format string reaches the output unchanged, ahead of whatever the rest formats to with the same arguments |
| FormatString.FormatFieldPrefix | lib/Introducer/Impl.cpp:17 | a `{}` field inserts the next argument verbatim, and the remaining fields take the remaining arguments in order |
| FormatString.FormatMissingArgument | lib/Introducer/Impl.cpp:12 | a fact about the formatting model rather than the introducer, whose calls always pass one argument per field: a `{}` field with no argument left makes the format malformed, as C++ rejects it |
| Introducer.IdentityFormatExpands | lib/Introducer/Impl.cpp:12 | `"My name is {}."` with one argument always succeeds and gives the prefix, the argument verbatim, then `.` |
| Introducer.IntroductionFormatExpands | lib/Introducer/Impl.cpp:17 | `"{} {}"` with two arguments always succeeds and gives the first, one space, then the second |
| Introducer.InternalFunction | lib/Introducer/Impl.cpp:10-13 | the identity sentence is exactly `"My name is " + name + "."`, for every name, with no escaping or trimming |
| Introducer.Introduce | lib/Introducer/Impl.cpp:15-18 | the introduction is exactly the greeting, one space, then the identity sentence of the name |
| Introducer.InternalFunctionLayout | lib/Introducer/Impl.cpp:12 | the sentence is `|name| + 12` long, starts with the 11-character prefix, holds the name at offsets 11 to 11 + `|name|` and ends with `.` |
| Introducer.InternalFunctionEmpty | lib/Introducer/Impl.cpp:10-13 | the empty name gives exactly `"My name is ."` |
| Introducer.InternalFunctionBracesVerbatim | lib/Introducer/Impl.cpp:12 | braces inside the name are not treated as fields and come out unchanged |
| Introducer.InternalFunctionInjective | lib/Introducer/Impl.cpp:12 | equal identity sentences come from equal names |
| Introducer.IntroduceLayout | lib/Introducer/Impl.cpp:17 | the introduction is `|greeting| + 1 + |name| + 12` long, has `' '` at index `|greeting|`, starts with the greeting, ends with the identity sentence and ends with `.`, even for an empty greeting |
| Introducer.IntroduceInjective | lib/Introducer/Impl.cpp:15-18 | for a fixed greeting, equal introductions come from equal names |
| Introducer.IntroduceText | lib/Introducer/Impl.cpp:15-18 | the introduction is exactly the greeting, one space, the identity prefix `"My name is "`, the name, then `.` |
| Introducer.IntroduceGreetingNotRecoverable | lib/Introducer/Impl.cpp:17 | a greeting that ends in an identity sentence gives the same introduction as a shorter greeting with a longer name, so the greeting cannot be read back from the output |
| Introducer.IntroduceEmptyGreeting | lib/Introducer/Impl.cpp:17 | an empty greeting with the name `Ada` gives exactly `" My name is Ada."`: the leading space stays |
| Introducer.IntroduceHelloAda | lib/Introducer/Impl.cpp:15-18 | the greeting `"Hello!"` with the name `Ada` gives exactly `"Hello! My name is Ada."` |
| Introducer.IntroduceFallible | lib/Introducer/Impl.cpp:17 | a failing greeter makes the introduction fail with the same error and produce no text; a succeeding greeter gives the ordinary introduction |

## Left out

- The greeter's `greet()` text: the greeter module is not part of this model, so the greeting is a parameter.
- The module declarations and imports (lib/Introducer/Impl.cpp:1-6) and the CMake packaging: build plumbing with no behaviour.
- FormatString.Format: format-specs (`{:>10}`), explicit argument indices (`{0}`) and width and fill are not modelled; such a field counts as malformed here, though C++ accepts it. The two format strings of the introducer use none of these.
- FormatString.Format: a malformed format string is `None` here. In C++ it is rejected at compile time, because the format string is checked when the program is built.
- C++ leaves unspecified whether `greet()` or `internal_function(name)` is evaluated first. Both are side-effect free from this code's point of view, so the order does not change the output and is not modelled.
- Character encoding and `std::string_view` lifetime: text is a sequence of `char` values.
- Allocation failure (`std::bad_alloc`) while building strings: a resource concern, not behaviour of the code.
