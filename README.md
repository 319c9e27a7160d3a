# Greeting transformer of the Rust Lambda example

This project models in Dafny the core of a small Rust program that runs on AWS Lambda or from the
command line. The core is `process_input` (src/main.rs). It takes an `Input` record, which holds a
`name` and an optional boolean `test`. It returns `Ok(Output { greeting })`. The greeting is
`"Hello Rusty Lambda World! Received param name: "`, then the name exactly as given, then `"!"`.
It gains the suffix `" And param test was set!"` only when `test` is `Some(true)`.

Layout:

- `wrappers.dfy`, module `Wrappers`: `Option` and `Result` in place of Rust's.
- `greeter.dfy`, module `Greeter`: the records `Input` and `Output`, and `BoxError` for Rust's boxed
  error type, which the core never produces. Also the template constants, the guard, the greeting
  function, the `Result`-returning `ProcessInput`, and the lemmas about them.

`process_input` is `async` in the source but never awaits anything, so it is modelled as a plain
function. The guard is written as the source writes it, `test.is_some() && test.unwrap_or_default()`,
and `TestIsSet` proves that it means `test == Some(true)`. The lemmas cover each of the three cases
of the flag: absent, `Some(false)` and `Some(true)`. They also show that the name can be recovered
from the greeting when the flag is known. `FlagNotRecoverable` shows that the flag itself cannot
be recovered. With the flag absent, a name ending in `"! And param test was set"` gives the same
greeting that a shorter name gives with the flag set. So "the greeting ends with the suffix" does
not imply "the flag was set"; only the other direction holds (`SetFlagEndsWithSuffix`).

Lengths written `|…|` count Dafny characters, which are Unicode scalar values. Rust's `String::len`
counts UTF-8 bytes. The greeting is a plain concatenation, so the length law holds in either unit.
The source never takes a length itself.

## Model

| member | source | states |
|---|---|---|
| Greeter.UnwrapOrDefault | src/main.rs:34 | `unwrap_or_default` on `Option<bool>` gives true exactly when the option is `Some(true)`; `None` gives bool's default, false |
| Greeter.TestIsSet | src/main.rs:34 | the guard `is_some() && unwrap_or_default()` holds if and only if `test == Some(true)` |
| Greeter.BaseGreeting | src/main.rs:30-33 | the first `format!` has length \|prefix\| + \|name\| + 1 and is the prefix, then the name verbatim, then "!" |
| Greeter.Greeting | src/main.rs:30-36 | every greeting starts with the fixed prefix, then holds the name verbatim, then "!", whatever the flag |
| Greeter.ProcessInput | src/main.rs:29-38 | `process_input` always returns `Ok`, and the output's greeting is the greeting for the input |
| Greeter.Tail | src/main.rs:31-35 | what follows the name is "!" plus the suffix when the flag is `Some(true)`, and "!" alone otherwise |
| Greeter.ExtractName | src/main.rs:30-35 | any name recovered from a string rebuilds that same string under the same flag, so extraction inverts the greeting exactly where it succeeds |
| Greeter.GreetingWhenAbsent | src/main.rs:30-34 | with `test` absent, the greeting is exactly prefix + name + "!", with no suffix |
| Greeter.GreetingWhenFalse | src/main.rs:34 | with `test == Some(false)`, the greeting is exactly prefix + name + "!", the same as with the flag absent |
| Greeter.GreetingWhenTrue | src/main.rs:34-35 | with `test == Some(true)`, the greeting is prefix + name + "!" followed by " And param test was set!" |
| Greeter.GreetingLayout | src/main.rs:30-35 | greeting = prefix + name + tail, so the suffix is appended at most once (the name itself may also contain it); length = \|prefix\| + \|name\| + 1, plus \|suffix\| only when `test == Some(true)` |
| Greeter.SetFlagEndsWithSuffix | src/main.rs:34-35 | with the flag set, the greeting ends with the suffix |
| Greeter.FlagNotRecoverable | src/main.rs:30-35 | two different inputs, one with the flag absent and one with it set, can give the same greeting, so the flag cannot be read back from the greeting |
| Greeter.NameRoundTrip | src/main.rs:30-35 | stripping the fixed prefix and the fixed tail from a greeting gives back the name it was built from |
| Greeter.GreetingInjective | src/main.rs:30-35 | for a fixed flag, distinct names give distinct greetings |
| Greeter.ProcessInputNeverFails | src/main.rs:37 | `process_input` never yields an error; its output is `Ok(Output(prefix + name + tail))` |
| Greeter.ScenarioFlagAbsent | src/main.rs:29-38 | the input name "test" with no flag gives "Hello Rusty Lambda World! Received param name: test!" |
| Greeter.ScenarioFlagTrue | src/main.rs:29-38 | the input name "test" with the flag true gives the same greeting followed by " And param test was set!" |

## Left out

- `lambda_handler` and the Lambda `main` (src/main.rs:23-27, 40-46): they only hand the event to the external Lambda runtime and drop the invocation context.
- The command-line `main` (src/main.rs:48-61): reading process arguments, the panic when no argument is given, JSON decoding and encoding with serde, and printing are all I/O or library behaviour. Decode failures, such as a missing `name`, happen before `process_input` is called.
- JSON round-trips of `Input` and `Output`: serde does these, not code in this repository.
- `async`/`tokio::main`: the core never awaits anything, so it is modelled as a synchronous function. Being a pure function, it returns the same output when called twice with the same input.
- `BoxError` (src/main.rs:10): modelled as a datatype holding a message. The core never builds one.
