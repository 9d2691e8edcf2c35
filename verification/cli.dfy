/**
 * The rules `parse_arguments` applies once argparse has produced its record:
 * defaults that depend on the environment, rewrites of a few fields, and the
 * checks that end the program with a usage error. Also the case-insensitive
 * `--log-level` type.
 */
module Cli {
  import opened Wrappers
  import opened Strings

  /** Values defined in the configuration module, which is not part of this model. */
  datatype Config = Config(defaultModel: string, validProviders: set<string>)

  /** The three API-key variables, each unset or set to some text. */
  datatype Env = Env(openaiApiKey: Option<string>, anthropicApiKey: Option<string>, deepseekApiKey: Option<string>)

  /** Python truthiness of an optional string: set and non-empty. */
  predicate Truthy(v: Option<string>)
  {
    v.Some? && v.value != ""
  }

  const OpenAiDefaultModel := "gpt-4o"

  /** The default of `--provider`: OpenAI only when its key is set and Anthropic's is not. */
  function DefaultProvider(env: Env): (provider: string)
    ensures provider == "openai" || provider == "anthropic"
  {
    if Truthy(env.openaiApiKey) && !Truthy(env.anthropicApiKey) then "openai" else "anthropic"
  }

  /** The default provider is OpenAI exactly when an OpenAI key is present and an Anthropic key is not. */
  lemma DefaultProviderRule(env: Env)
    ensures DefaultProvider(env) == "openai" <==> Truthy(env.openaiApiKey) && !Truthy(env.anthropicApiKey)
    ensures Truthy(env.anthropicApiKey) ==> DefaultProvider(env) == "anthropic"
  {
  }

  /** The fields of the parsed record that the post-processing reads or writes. */
  datatype Args = Args(
    provider: string, model: Option<string>, researchOnly: bool,
    expertProvider: Option<string>, expertModel: Option<string>,
    hil: bool, chat: bool,
    temperature: Option<real>, recursionLimit: int,
    autoTest: bool, testCmd: Option<string>)

  /** `x or default` on an optional string. */
  function Or(v: Option<string>, default: string): string
  {
    if Truthy(v) then v.value else default
  }

  /** Chat mode implies human-in-the-loop. */
  function WithChat(a: Args): Args
  {
    if a.chat then a.(hil := true) else a
  }

  /** The model defaults: OpenAI and Anthropic get theirs, another provider needs a model unless only researching. */
  function WithModel(a: Args, cfg: Config): Result<Args, string>
  {
    if a.provider == "openai" then Success(a.(model := Some(Or(a.model, OpenAiDefaultModel))))
    else if a.provider == "anthropic" then Success(a.(model := Some(Or(a.model, cfg.defaultModel))))
    else if !Truthy(a.model) && !a.researchOnly then
      Failure("--model is required when using provider '" + a.provider + "'")
    else Success(a)
  }

  /** The expert defaults, used only when no expert provider was given. */
  function WithExpert(a: Args, env: Env): Args
  {
    if Truthy(a.expertProvider) then a
    else if Truthy(env.openaiApiKey) then a.(expertProvider := Some("openai"), expertModel := None)
    else if Truthy(env.deepseekApiKey) then a.(expertProvider := Some("deepseek"), expertModel := Some("deepseek-reasoner"))
    else a.(expertProvider := Some(a.provider), expertModel := a.model)
  }

  /** The final range checks, in the order the source makes them. */
  function Checked(a: Args): Result<Args, string>
  {
    if a.temperature.Some? && !(0.0 <= a.temperature.value <= 2.0) then Failure("Temperature must be between 0.0 and 2.0")
    else if a.recursionLimit <= 0 then Failure("Recursion limit must be positive")
    else if a.autoTest && !Truthy(a.testCmd) then Failure("Test command is required when using --auto-test")
    else Success(a)
  }

  /**
   * The post-processing of `parse_arguments`: the rewritten record, or the
   * message of the first usage error.
   */
  function PostProcess(a: Args, env: Env, cfg: Config): Result<Args, string>
  {
    var a1 := WithChat(a);
    if a1.provider !in cfg.validProviders then Failure("Invalid provider: " + a1.provider)
    else match WithModel(a1, cfg)
      case Failure(e) => Failure(e)
      case Success(a2) => Checked(WithExpert(a2, env))
  }

  /** The model stage fails only for another provider with no model outside research-only mode. */
  lemma WithModelSpec(a: Args, cfg: Config)
    ensures WithModel(a, cfg).Failure? <==>
              a.provider != "openai" && a.provider != "anthropic" && !Truthy(a.model) && !a.researchOnly
    ensures WithModel(a, cfg).Failure? ==>
              WithModel(a, cfg).error == "--model is required when using provider '" + a.provider + "'"
    ensures WithModel(a, cfg).Success? ==> WithModel(a, cfg).value == a.(model := WithModel(a, cfg).value.model)
    ensures a.provider == "openai" ==> WithModel(a, cfg).value.model == Some(Or(a.model, OpenAiDefaultModel))
    ensures a.provider == "anthropic" ==> WithModel(a, cfg).value.model == Some(Or(a.model, cfg.defaultModel))
    ensures WithModel(a, cfg).Success? && a.provider != "openai" && a.provider != "anthropic" ==>
              WithModel(a, cfg).value == a
  {
  }

  /** The expert stage touches only the two expert fields, and those only when no expert provider was given. */
  lemma WithExpertSpec(a: Args, env: Env)
    ensures WithExpert(a, env) == a.(expertProvider := WithExpert(a, env).expertProvider,
                                     expertModel := WithExpert(a, env).expertModel)
    ensures Truthy(a.expertProvider) ==> WithExpert(a, env) == a
    ensures !Truthy(a.expertProvider) && Truthy(env.openaiApiKey) ==>
              WithExpert(a, env).expertProvider == Some("openai") && WithExpert(a, env).expertModel == None
    ensures !Truthy(a.expertProvider) && !Truthy(env.openaiApiKey) && Truthy(env.deepseekApiKey) ==>
              WithExpert(a, env).expertProvider == Some("deepseek") && WithExpert(a, env).expertModel == Some("deepseek-reasoner")
    ensures !Truthy(a.expertProvider) && !Truthy(env.openaiApiKey) && !Truthy(env.deepseekApiKey) ==>
              WithExpert(a, env).expertProvider == Some(a.provider) && WithExpert(a, env).expertModel == a.model
  {
  }

  /** The range checks either pass the record through unchanged or fail with the first violated rule. */
  lemma CheckedSpec(a: Args)
    ensures Checked(a).Failure? <==>
              || (a.temperature.Some? && !(0.0 <= a.temperature.value <= 2.0))
              || a.recursionLimit <= 0
              || (a.autoTest && !Truthy(a.testCmd))
    ensures Checked(a).Success? ==> Checked(a).value == a
    ensures a.temperature.Some? && !(0.0 <= a.temperature.value <= 2.0) ==>
              Checked(a) == Failure("Temperature must be between 0.0 and 2.0")
    ensures (a.temperature.None? || 0.0 <= a.temperature.value <= 2.0) && a.recursionLimit <= 0 ==>
              Checked(a) == Failure("Recursion limit must be positive")
    ensures (a.temperature.None? || 0.0 <= a.temperature.value <= 2.0) && a.recursionLimit > 0 && a.autoTest && !Truthy(a.testCmd) ==>
              Checked(a) == Failure("Test command is required when using --auto-test")
  {
  }

  /**
   * When the post-processing fails: an unknown provider, a missing model,
   * a temperature outside [0.0, 2.0], a non-positive recursion limit, or
   * auto-test without a test command. The first two are reported first.
   */
  lemma {:induction false} PostProcessErrors(a: Args, env: Env, cfg: Config)
    ensures a.provider !in cfg.validProviders ==> PostProcess(a, env, cfg) == Failure("Invalid provider: " + a.provider)
    ensures a.provider in cfg.validProviders && a.provider != "openai" && a.provider != "anthropic"
            && !Truthy(a.model) && !a.researchOnly
            ==> PostProcess(a, env, cfg) == Failure("--model is required when using provider '" + a.provider + "'")
    ensures PostProcess(a, env, cfg).Failure? <==>
              || a.provider !in cfg.validProviders
              || (a.provider != "openai" && a.provider != "anthropic" && !Truthy(a.model) && !a.researchOnly)
              || (a.temperature.Some? && !(0.0 <= a.temperature.value <= 2.0))
              || a.recursionLimit <= 0
              || (a.autoTest && !Truthy(a.testCmd))
    ensures a.provider in cfg.validProviders && WithModel(WithChat(a), cfg).Success? ==>
              PostProcess(a, env, cfg) == Checked(WithExpert(WithModel(WithChat(a), cfg).value, env))
  {
    var a1 := WithChat(a);
    WithModelSpec(a1, cfg);
    if a1.provider in cfg.validProviders && WithModel(a1, cfg).Success? {
      var a2 := WithModel(a1, cfg).value;
      WithExpertSpec(a2, env);
      CheckedSpec(WithExpert(a2, env));
    }
  }

  /**
   * What a successful post-processing produces: chat implies human-in-the-loop,
   * the model defaults per provider, the expert defaults by key priority, and
   * every other field as parsed.
   */
  lemma {:induction false} PostProcessResult(a: Args, env: Env, cfg: Config)
    requires PostProcess(a, env, cfg).Success?
    ensures PostProcess(a, env, cfg).value.hil == (a.hil || a.chat)
    ensures a.provider == "openai" ==> PostProcess(a, env, cfg).value.model == Some(Or(a.model, OpenAiDefaultModel))
    ensures a.provider == "anthropic" ==> PostProcess(a, env, cfg).value.model == Some(Or(a.model, cfg.defaultModel))
    ensures a.provider != "openai" && a.provider != "anthropic" ==> PostProcess(a, env, cfg).value.model == a.model
    ensures Truthy(a.expertProvider) ==>
              PostProcess(a, env, cfg).value.expertProvider == a.expertProvider
              && PostProcess(a, env, cfg).value.expertModel == a.expertModel
    ensures !Truthy(a.expertProvider) && Truthy(env.openaiApiKey) ==>
              PostProcess(a, env, cfg).value.expertProvider == Some("openai")
              && PostProcess(a, env, cfg).value.expertModel == None
    ensures !Truthy(a.expertProvider) && !Truthy(env.openaiApiKey) && Truthy(env.deepseekApiKey) ==>
              PostProcess(a, env, cfg).value.expertProvider == Some("deepseek")
              && PostProcess(a, env, cfg).value.expertModel == Some("deepseek-reasoner")
    ensures !Truthy(a.expertProvider) && !Truthy(env.openaiApiKey) && !Truthy(env.deepseekApiKey) ==>
              PostProcess(a, env, cfg).value.expertProvider == Some(a.provider)
              && PostProcess(a, env, cfg).value.expertModel == PostProcess(a, env, cfg).value.model
    ensures PostProcess(a, env, cfg).value == a.(hil := PostProcess(a, env, cfg).value.hil,
                                                 model := PostProcess(a, env, cfg).value.model,
                                                 expertProvider := PostProcess(a, env, cfg).value.expertProvider,
                                                 expertModel := PostProcess(a, env, cfg).value.expertModel)
  {
    var a1 := WithChat(a);
    WithModelSpec(a1, cfg);
    var a2 := WithModel(a1, cfg).value;
    WithExpertSpec(a2, env);
    CheckedSpec(WithExpert(a2, env));
  }

  /**
   * What the default provider leads to when neither `--model` nor
   * `--expert-provider` is given: with an OpenAI key and no Anthropic key the
   * run uses OpenAI and its default model, with OpenAI as expert; otherwise
   * Anthropic with the configured default model, and the expert chosen by the
   * remaining keys.
   */
  lemma {:induction false} DefaultProviderOutcome(a: Args, env: Env, cfg: Config)
    requires a.provider == DefaultProvider(env)
    requires !Truthy(a.model) && !Truthy(a.expertProvider)
    requires PostProcess(a, env, cfg).Success?
    ensures Truthy(env.openaiApiKey) && !Truthy(env.anthropicApiKey) ==>
              && PostProcess(a, env, cfg).value.provider == "openai"
              && PostProcess(a, env, cfg).value.model == Some(OpenAiDefaultModel)
              && PostProcess(a, env, cfg).value.expertProvider == Some("openai")
    ensures Truthy(env.anthropicApiKey) ==>
              && PostProcess(a, env, cfg).value.provider == "anthropic"
              && PostProcess(a, env, cfg).value.model == Some(cfg.defaultModel)
    ensures Truthy(env.anthropicApiKey) && Truthy(env.openaiApiKey) ==>
              PostProcess(a, env, cfg).value.expertProvider == Some("openai")
    ensures !Truthy(env.openaiApiKey) && Truthy(env.deepseekApiKey) ==>
              PostProcess(a, env, cfg).value.expertProvider == Some("deepseek")
    ensures !Truthy(env.openaiApiKey) && !Truthy(env.deepseekApiKey) ==>
              && PostProcess(a, env, cfg).value.provider == "anthropic"
              && PostProcess(a, env, cfg).value.expertProvider == Some("anthropic")
              && PostProcess(a, env, cfg).value.expertModel == Some(cfg.defaultModel)
  {
    DefaultProviderRule(env);
    PostProcessResult(a, env, cfg);
  }

  /**
   * Running the post-processing again on its own result changes nothing: the
   * defaults it fills in are exactly the ones it would keep.
   */
  lemma {:induction false} PostProcessIdempotent(a: Args, env: Env, cfg: Config)
    requires "" !in cfg.validProviders
    requires PostProcess(a, env, cfg).Success?
    ensures PostProcess(PostProcess(a, env, cfg).value, env, cfg) == PostProcess(a, env, cfg)
  {
    var r := PostProcess(a, env, cfg).value;
    PostProcessResult(a, env, cfg);
    assert Truthy(r.expertProvider);
    assert WithChat(r) == r;
    if r.provider == "openai" || r.provider == "anthropic" {
      assert Or(a.model, OpenAiDefaultModel) != "";
      assert Truthy(r.model) || r.provider == "anthropic";
    }
    assert WithModel(r, cfg) == Success(r) || (r.provider == "anthropic" && cfg.defaultModel == "");
    if r.provider == "anthropic" && !Truthy(r.model) {
      assert r.model == Some(cfg.defaultModel);
      assert WithModel(r, cfg) == Success(r);
    }
  }

  const LogLevels: seq<string> := ["debug", "info", "warning", "error", "critical"]

  /** `log_level_type`: the lowercased level, or the argparse type error naming it. */
  function LogLevelType(value: string): Result<string, string>
  {
    var lowered := AsciiLower(value);
    if lowered !in LogLevels then
      Failure("Invalid log level: " + lowered + ". Choose from debug, info, warning, error, critical.")
    else Success(lowered)
  }

  /**
   * A level is accepted exactly when its lowercase form is one of the five
   * names, and then that lowercase form is the result; the check ignores case
   * and accepting is idempotent.
   */
  lemma LogLevelTypeSpec(value: string)
    ensures LogLevelType(value).Success? <==> AsciiLower(value) in LogLevels
    ensures LogLevelType(value).Success? ==> LogLevelType(value).value == AsciiLower(value) && LogLevelType(value).value in LogLevels
    ensures LogLevelType(AsciiLower(value)) == LogLevelType(value)
    ensures LogLevelType(value).Success? ==> LogLevelType(LogLevelType(value).value) == LogLevelType(value)
  {
    AsciiLowerIdempotent(value);
  }
}
