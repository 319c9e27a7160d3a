/**
 * The greeting transformer of the Rust Lambda example (`process_input` in
 * src/main.rs) and the two records it maps between.
 */
module Greeter {
  import opened Wrappers

  /** The decoded request: a required `name` and a tri-state `test` flag. */
  datatype Input = Input(name: string, test: Option<bool>)

  /** The response record; serialized as `{"greeting": ...}` by the shells. */
  datatype Output = Output(greeting: string)

  /**
   * Rust's `BoxError` (a boxed `dyn Error`). Its contents are never inspected
   * by the core, so it is modelled as an opaque message.
   */
  datatype BoxError = BoxError(message: string)

  /** The text of the format template before the `{}` placeholder. */
  const PREFIX: string := "Hello Rusty Lambda World! Received param name: "

  /** The text of the format template after the `{}` placeholder. */
  const BANG: string := "!"

  /** What the second `format!` appends after the base greeting. */
  const TEST_SUFFIX: string := " And param test was set!"

  /** `Option<bool>::unwrap_or_default`: the value if present, `bool::default()` (false) otherwise. */
  function UnwrapOrDefault(o: Option<bool>): (b: bool)
    ensures b <==> o == Some(true)
  {
    match o
    case Some(v) => v
    case None => false
  }

  /**
   * The guard `input.test.is_some() && input.test.unwrap_or_default()`,
   * written as the source writes it; it holds exactly when the flag is
   * present and true.
   */
  predicate TestIsSet(test: Option<bool>)
    ensures TestIsSet(test) <==> test == Some(true)
  {
    test.IsSome() && UnwrapOrDefault(test)
  }

  /**
   * `format!("Hello Rusty Lambda World! Received param name: {}!", name)`:
   * the prefix, the name exactly as given, then "!".
   */
  function BaseGreeting(name: string): (g: string)
    ensures |g| == |PREFIX| + |name| + |BANG|
    ensures g[..|PREFIX|] == PREFIX
    ensures g[|PREFIX|..|PREFIX| + |name|] == name
    ensures g[|PREFIX| + |name|..] == BANG
  {
    PREFIX + name + BANG
  }

  /** The greeting `process_input` builds for `input`. */
  function Greeting(input: Input): (g: string)
    ensures |PREFIX| + |input.name| + |BANG| <= |g|
    ensures g[..|PREFIX|] == PREFIX
    ensures g[|PREFIX|..|PREFIX| + |input.name|] == input.name
    ensures g[|PREFIX| + |input.name|] == '!'
  {
    var greeting := BaseGreeting(input.name);
    if TestIsSet(input.test) then greeting + TEST_SUFFIX else greeting
  }

  /** `process_input`: always `Ok`, carrying the greeting. */
  function ProcessInput(input: Input): (r: Result<Output, BoxError>)
    ensures r.Ok?
    ensures r.value.greeting == Greeting(input)
  {
    Ok(Output(Greeting(input)))
  }

  /** What follows the name in the greeting for a given flag: "!" and, if set, the suffix. */
  function Tail(test: Option<bool>): (t: string)
    ensures test == Some(true) ==> t == BANG + TEST_SUFFIX
    ensures test != Some(true) ==> t == BANG
  {
    if TestIsSet(test) then BANG + TEST_SUFFIX else BANG
  }

  /**
   * Recovers the name from a greeting produced for the flag `test`: `None`
   * when `g` does not start with the prefix and end with the tail. Any name
   * it returns rebuilds `g` under the same flag.
   */
  function ExtractName(g: string, test: Option<bool>): (r: Option<string>)
    ensures r.Some? ==> Greeting(Input(r.value, test)) == g
  {
    var tail := Tail(test);
    if |PREFIX| + |tail| <= |g| && g[..|PREFIX|] == PREFIX && g[|g| - |tail|..] == tail
    then
      var name := g[|PREFIX|..|g| - |tail|];
      assert g == g[..|PREFIX|] + name + g[|g| - |tail|..];
      GreetingLayout(Input(name, test));
      Some(name)
    else None
  }

  // ---------------------------------------------------------------------
  // The three cases of the flag

  /** With the flag absent the greeting is exactly the base string. */
  lemma GreetingWhenAbsent(name: string)
    ensures Greeting(Input(name, None)) == PREFIX + name + BANG
  {
  }

  /** A flag present but false adds nothing: the same greeting as when it is absent. */
  lemma GreetingWhenFalse(name: string)
    ensures Greeting(Input(name, Some(false))) == PREFIX + name + BANG
    ensures Greeting(Input(name, Some(false))) == Greeting(Input(name, None))
  {
  }

  /** A flag present and true appends the suffix once, after the base string. */
  lemma GreetingWhenTrue(name: string)
    ensures Greeting(Input(name, Some(true))) == PREFIX + name + BANG + TEST_SUFFIX
  {
  }

  /**
   * The greeting is the prefix, the name and the tail for the flag; so its
   * length counts the suffix exactly when the flag is present and true.
   */
  lemma GreetingLayout(input: Input)
    ensures Greeting(input) == PREFIX + input.name + Tail(input.test)
    ensures |Greeting(input)| == |PREFIX| + |input.name| + 1 + (if input.test == Some(true) then |TEST_SUFFIX| else 0)
  {
  }

  /** A set flag always leaves the suffix at the very end of the greeting. */
  lemma SetFlagEndsWithSuffix(name: string)
    ensures var g := Greeting(Input(name, Some(true)));
      |g| >= |TEST_SUFFIX| && g[|g| - |TEST_SUFFIX|..] == TEST_SUFFIX
  {
  }

  /**
   * The converse fails: a name that itself ends in "! And param test was set"
   * gives, with the flag absent, the very greeting a shorter name gives with
   * the flag set. So the flag cannot be read back from the greeting, and the
   * name can be recovered only for a known flag.
   */
  lemma FlagNotRecoverable(name: string)
    ensures Greeting(Input(name + "! And param test was set", None)) == Greeting(Input(name, Some(true)))
    ensures Input(name + "! And param test was set", None) != Input(name, Some(true))
  {
    var long := name + "! And param test was set";
    assert "! And param test was set" + BANG == BANG + TEST_SUFFIX;
    calc {
      Greeting(Input(long, None));
      PREFIX + long + BANG;
      PREFIX + name + ("! And param test was set" + BANG);
      PREFIX + name + (BANG + TEST_SUFFIX);
      PREFIX + name + BANG + TEST_SUFFIX;
      Greeting(Input(name, Some(true)));
    }
  }

  // ---------------------------------------------------------------------
  // Recovering the name

  /** Stripping the prefix and the tail of a greeting gives back the name, verbatim. */
  lemma NameRoundTrip(input: Input)
    ensures ExtractName(Greeting(input), input.test) == Some(input.name)
  {
  }

  /** For a fixed flag, distinct names give distinct greetings. */
  lemma GreetingInjective(name1: string, name2: string, test: Option<bool>)
    ensures Greeting(Input(name1, test)) == Greeting(Input(name2, test)) ==> name1 == name2
  {
  }

  // ---------------------------------------------------------------------
  // The result wrapper

  /** `process_input` never reports an error, and its greeting is the one described above. */
  lemma ProcessInputNeverFails(input: Input)
    ensures ProcessInput(input).IsOk()
    ensures ProcessInput(input) == Ok(Output(PREFIX + input.name + Tail(input.test)))
  {
    GreetingLayout(input);
  }

  /** The sample request with name "test" and no flag. */
  lemma ScenarioFlagAbsent()
    ensures ProcessInput(Input("test", None)) == Ok(Output("Hello Rusty Lambda World! Received param name: test!"))
  {
    assert PREFIX + "test" + BANG == "Hello Rusty Lambda World! Received param name: test!";
  }

  /** The sample request with name "test" and the flag set to true. */
  lemma ScenarioFlagTrue()
    ensures ProcessInput(Input("test", Some(true)))
      == Ok(Output("Hello Rusty Lambda World! Received param name: test! And param test was set!"))
  {
    assert PREFIX + "test" + BANG == "Hello Rusty Lambda World! Received param name: test!";
    assert "Hello Rusty Lambda World! Received param name: test!" + TEST_SUFFIX
      == "Hello Rusty Lambda World! Received param name: test! And param test was set!";
  }
}
