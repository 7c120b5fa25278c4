/** The configuration of core/config.go: defaults, then the environment,
    then the command-line arguments. The process environment is the `env`
    map parameter; a variable that is not set reads as "". */
module CoreConfig {
  import opened Wrappers

  datatype FeishuConfig = FeishuConfig(appId: string, appSecret: string)

  datatype OutputConfig = OutputConfig(outputDir: string, imageDir: string, titleAsFilename: bool,
                                       useHTMLTags: bool, skipImgDownload: bool)

  datatype ImageBedConfig = ImageBedConfig(enabled: bool, platform: string, secretID: string, secretKey: string,
                                           bucket: string, region: string, host: string, prefixKey: string,
                                           secretExt: string)

  type Env = map<string, string>

  /** os.Getenv: the value, or "" when the variable is not set. */
  function Getenv(env: Env, key: string): string {
    if key in env then env[key] else ""
  }

  /** A value that replaces the current one only when it is not empty. */
  function Override(current: string, value: string): (r: string)
    ensures r == value || (value == "" && r == current)
  {
    if value != "" then value else current
  }

  /** The output settings NewConfig starts from. */
  const DefaultOutput := OutputConfig("./dist", "img", true, false, false)

  /** The zero ImageBedConfig: disabled, every string empty. */
  const NoImageBed := ImageBedConfig(false, "", "", "", "", "", "", "", "")

  /** The credentials after LoadConfig: the environment over "", then the
      arguments over that. */
  function Credentials(appId: string, appSecret: string, env: Env): FeishuConfig {
    var fromEnv := FeishuConfig(Override("", Getenv(env, "FEISHU_APP_ID")), Override("", Getenv(env, "FEISHU_APP_SECRET")));
    FeishuConfig(Override(fromEnv.appId, appId), Override(fromEnv.appSecret, appSecret))
  }

  /** What loadOutputConfig makes of the output settings. */
  function OutputFromEnv(o: OutputConfig, env: Env): OutputConfig {
    o.(outputDir := Override(o.outputDir, Getenv(env, "OUTPUT_DIR")),
       imageDir := Override(o.imageDir, Getenv(env, "IMAGE_DIR")))
  }

  /** IMGBED_ENABLED switches the image bed on only with "true" or "1". */
  predicate EnabledValue(v: string) {
    v == "true" || v == "1"
  }

  /** What loadImageBedConfig makes of the image-bed settings. */
  function ImageBedFromEnv(b: ImageBedConfig, env: Env): ImageBedConfig {
    ImageBedConfig(
      b.enabled || EnabledValue(Getenv(env, "IMGBED_ENABLED")),
      Override(b.platform, Getenv(env, "IMGBED_PLATFORM")),
      Override(b.secretID, Getenv(env, "IMGBED_SECRET_ID")),
      Override(b.secretKey, Getenv(env, "IMGBED_SECRET_KEY")),
      Override(b.bucket, Getenv(env, "IMGBED_BUCKET")),
      Override(b.region, Getenv(env, "IMGBED_REGION")),
      Override(b.host, Getenv(env, "IMGBED_HOST")),
      Override(b.prefixKey, Getenv(env, "IMGBED_PREFIX_KEY")),
      Override(b.secretExt, Getenv(env, "IMGBED_SECRET_EXT")))
  }

  /** Each credential is the argument when one is given, else the environment
      variable when it is set and not empty, else "". */
  lemma CredentialPrecedence(appId: string, appSecret: string, env: Env)
    ensures var c := Credentials(appId, appSecret, env);
      && c.appId == (if appId != "" then appId
                     else if "FEISHU_APP_ID" in env then env["FEISHU_APP_ID"] else "")
      && c.appSecret == (if appSecret != "" then appSecret
                         else if "FEISHU_APP_SECRET" in env then env["FEISHU_APP_SECRET"] else "")
  {
  }

  /** The output directories change only for a variable that is set and not
      empty, and then take its value; the flags never change. */
  lemma OutputPrecedence(o: OutputConfig, env: Env)
    ensures var r := OutputFromEnv(o, env);
      && (r.outputDir != o.outputDir ==> "OUTPUT_DIR" in env && r.outputDir == env["OUTPUT_DIR"])
      && (r.imageDir != o.imageDir ==> "IMAGE_DIR" in env && r.imageDir == env["IMAGE_DIR"])
      && ("OUTPUT_DIR" !in env || env["OUTPUT_DIR"] == "" ==> r.outputDir == o.outputDir)
      && ("IMAGE_DIR" !in env || env["IMAGE_DIR"] == "" ==> r.imageDir == o.imageDir)
      && r.titleAsFilename == o.titleAsFilename && r.useHTMLTags == o.useHTMLTags
      && r.skipImgDownload == o.skipImgDownload
  {
  }

  /** Loaded onto the zero settings, the image bed is enabled exactly when
      IMGBED_ENABLED is "true" or "1", and every other field is its
      variable's value ("" when unset). */
  lemma ImageBedFromZero(env: Env)
    ensures var b := ImageBedFromEnv(NoImageBed, env);
      && (b.enabled <==> "IMGBED_ENABLED" in env && (env["IMGBED_ENABLED"] == "true" || env["IMGBED_ENABLED"] == "1"))
      && b.platform == Getenv(env, "IMGBED_PLATFORM")
      && b.secretID == Getenv(env, "IMGBED_SECRET_ID")
      && b.secretKey == Getenv(env, "IMGBED_SECRET_KEY")
      && b.bucket == Getenv(env, "IMGBED_BUCKET")
      && b.region == Getenv(env, "IMGBED_REGION")
      && b.host == Getenv(env, "IMGBED_HOST")
      && b.prefixKey == Getenv(env, "IMGBED_PREFIX_KEY")
      && b.secretExt == Getenv(env, "IMGBED_SECRET_EXT")
  {
  }

  /** Loading the same environment a second time changes nothing. */
  lemma LoadTwice(o: OutputConfig, b: ImageBedConfig, env: Env)
    ensures OutputFromEnv(OutputFromEnv(o, env), env) == OutputFromEnv(o, env)
    ensures ImageBedFromEnv(ImageBedFromEnv(b, env), env) == ImageBedFromEnv(b, env)
  {
  }

  /** The complete configuration. */
  class Config {
    var feishu: FeishuConfig
    var output: OutputConfig
    var imageBed: ImageBedConfig

    /** NewConfig: the given credentials, the default output settings and
        the zero image-bed settings. */
    constructor(appId: string, appSecret: string)
      ensures feishu == FeishuConfig(appId, appSecret)
      ensures output == DefaultOutput && imageBed == NoImageBed
      ensures output.outputDir == "./dist" && output.imageDir == "img" && output.titleAsFilename
      ensures !output.useHTMLTags && !output.skipImgDownload && !imageBed.enabled
    {
      feishu := FeishuConfig(appId, appSecret);
      output := OutputConfig("./dist", "img", true, false, false);
      imageBed := ImageBedConfig(false, "", "", "", "", "", "", "", "");
    }

    /** loadOutputConfig: each directory that has a non-empty variable. */
    method LoadOutputConfig(env: Env)
      modifies this
      ensures output == OutputFromEnv(old(output), env)
      ensures feishu == old(feishu) && imageBed == old(imageBed)
    {
      var outputDir := Getenv(env, "OUTPUT_DIR");
      if outputDir != "" {
        output := output.(outputDir := outputDir);
      }
      var imageDir := Getenv(env, "IMAGE_DIR");
      if imageDir != "" {
        output := output.(imageDir := imageDir);
      }
    }

    /** loadImageBedConfig: the switch, then each field that has a
        non-empty variable. */
    method LoadImageBedConfig(env: Env)
      modifies this
      ensures imageBed == ImageBedFromEnv(old(imageBed), env)
      ensures feishu == old(feishu) && output == old(output)
    {
      var b := imageBed;
      var enabled := Getenv(env, "IMGBED_ENABLED");
      if enabled == "true" || enabled == "1" {
        b := b.(enabled := true);
      }
      b := b.(platform := Override(b.platform, Getenv(env, "IMGBED_PLATFORM")));
      b := b.(secretID := Override(b.secretID, Getenv(env, "IMGBED_SECRET_ID")));
      b := b.(secretKey := Override(b.secretKey, Getenv(env, "IMGBED_SECRET_KEY")));
      b := b.(bucket := Override(b.bucket, Getenv(env, "IMGBED_BUCKET")));
      b := b.(region := Override(b.region, Getenv(env, "IMGBED_REGION")));
      b := b.(host := Override(b.host, Getenv(env, "IMGBED_HOST")));
      b := b.(prefixKey := Override(b.prefixKey, Getenv(env, "IMGBED_PREFIX_KEY")));
      b := b.(secretExt := Override(b.secretExt, Getenv(env, "IMGBED_SECRET_EXT")));
      imageBed := b;
    }
  }

  /** LoadConfig: the cascade of defaults, environment and arguments; it
      never reports an error. */
  method LoadConfig(appId: string, appSecret: string, env: Env) returns (config: Config, err: Option<string>)
    ensures fresh(config)
    ensures config.feishu == Credentials(appId, appSecret, env)
    ensures config.output == OutputFromEnv(DefaultOutput, env)
    ensures config.imageBed == ImageBedFromEnv(NoImageBed, env)
    ensures err == None
  {
    config := new Config("", "");
    var envAppId := Getenv(env, "FEISHU_APP_ID");
    if envAppId != "" {
      config.feishu := config.feishu.(appId := envAppId);
    }
    var envAppSecret := Getenv(env, "FEISHU_APP_SECRET");
    if envAppSecret != "" {
      config.feishu := config.feishu.(appSecret := envAppSecret);
    }
    if appId != "" {
      config.feishu := config.feishu.(appId := appId);
    }
    if appSecret != "" {
      config.feishu := config.feishu.(appSecret := appSecret);
    }
    config.LoadOutputConfig(env);
    config.LoadImageBedConfig(env);
    err := None;
  }
}
