/**
 * The Kotlin command line front end that configures the OpenAPI generator for a
 * Python SDK: it normalises the namespace into a package name and derives the
 * artifact and package coordinates from it.
 */
module SdkGenerator {
  import opened Wrappers
  import opened Text
  import opened PyDict

  /** The characters the normalised package name may keep: `[a-z0-9]`. */
  predicate IsPackageChar(c: char) { IsLower(c) || IsDigit(c) }

  /** Removes every character outside `[a-z0-9]`. */
  function KeepPackageChars(s: string): (r: string)
    ensures |r| <= |s|
    ensures forall c :: c in r ==> IsPackageChar(c)
  {
    if s == [] then []
    else (if IsPackageChar(s[0]) then [s[0]] else []) + KeepPackageChars(s[1..])
  }

  /** `namespace.lowercase()` with every character outside `[a-z0-9]` removed. */
  function NormalizePackageName(ns: string): (r: string)
    ensures forall c :: c in r ==> IsPackageChar(c)
  {
    KeepPackageChars(Lower(ns))
  }

  /** The ASCII letters and digits of `s`, in order. */
  function AlnumOnly(s: string): (r: string)
    ensures forall c :: c in r ==> IsAlnum(c)
  {
    if s == [] then []
    else (if IsAlnum(s[0]) then [s[0]] else []) + AlnumOnly(s[1..])
  }

  /** The normalised name is the input's letters and digits, lower-cased and in order. */
  lemma {:induction false} NormalizeIsLoweredAlnum(ns: string)
    ensures NormalizePackageName(ns) == Lower(AlnumOnly(ns))
    decreases |ns|
  {
    if ns != [] {
      NormalizeIsLoweredAlnum(ns[1..]);
      assert Lower(ns) == [LowerChar(ns[0])] + Lower(ns[1..]);
      assert IsPackageChar(LowerChar(ns[0])) <==> IsAlnum(ns[0]);
      if IsAlnum(ns[0]) {
        assert AlnumOnly(ns) == [ns[0]] + AlnumOnly(ns[1..]);
        assert Lower([ns[0]] + AlnumOnly(ns[1..])) == [LowerChar(ns[0])] + Lower(AlnumOnly(ns[1..]));
      } else {
        assert AlnumOnly(ns) == AlnumOnly(ns[1..]);
      }
    }
  }

  lemma {:induction false} KeepPackageCharsOnPackageName(s: string)
    requires forall c :: c in s ==> IsPackageChar(c)
    ensures KeepPackageChars(s) == s
    decreases |s|
  {
    if s != [] {
      assert s[0] in s;
      assert forall c :: c in s[1..] ==> c in s;
      KeepPackageCharsOnPackageName(s[1..]);
    }
  }

  /** Normalising a normalised name changes nothing. */
  lemma NormalizeIdempotent(ns: string)
    ensures NormalizePackageName(NormalizePackageName(ns)) == NormalizePackageName(ns)
  {
    var p := NormalizePackageName(ns);
    assert Lower(p) == p by {
      forall i | 0 <= i < |p| ensures Lower(p)[i] == p[i] {
        assert p[i] in p;
      }
    }
    KeepPackageCharsOnPackageName(p);
  }

  /** A value of the generator's `additionalProperties` map. */
  datatype PropertyValue = Str(s: string) | Bool(b: bool)

  const GROUP_ID := "openworld.sdk"
  const ARTIFACT_PREFIX := "openworld-sdk-python-"
  const PACKAGE_PREFIX := "openworld.sdk."
  const FAILURE_MESSAGE := "Failed to generate SDK"
  const GENERATOR_NAME := "python"
  const TEMPLATE_DIR := "templates/openworld-sdk/"
  const SUPPORTING_FILES := "requirements.txt,setup.py,apis_tag_to_api.handlebars"
  const API_NAME_SUFFIX := "Client"
  const MODEL_PACKAGE := "model"
  const API_PACKAGE := "client"
  /** The three global properties `run()` adds, in order. */
  const GLOBAL_PROPERTIES: Dict<string, string> := [("models", ""), ("apis", ""), ("supportingFiles", SUPPORTING_FILES)]
  /** The two additional properties `run()` sets before the artifact coordinates. */
  const EARLY_PROPERTIES: Dict<string, PropertyValue> :=
    [("enumPropertyNaming", Str("UPPERCASE")), ("sortParamsByRequiredFlag", Bool(true))]

  /** The settings `run()` applies to the OpenAPI generator's configurator. */
  class CodegenConfigurator {
    var generatorName: string
    var templateDir: string
    var inputSpec: string
    var outputDir: string
    var globalProperties: Dict<string, string>
    var apiNameSuffix: string
    var modelPackage: string
    var apiPackage: string
    var additionalProperties: Dict<string, PropertyValue>
    var artifactVersion: string
    var groupId: string
    var artifactId: string
    var invokerPackage: string
    var packageName: string

    /** A configurator holding the given settings; `Apply` passes them in `run()`'s order. */
    constructor (generatorName: string, templateDir: string, inputSpec: string, outputDir: string,
                 globalProperties: Dict<string, string>,
                 apiNameSuffix: string, modelPackage: string, apiPackage: string,
                 additionalProperties: Dict<string, PropertyValue>,
                 artifactVersion: string, groupId: string, artifactId: string,
                 invokerPackage: string, packageName: string)
      ensures this.generatorName == generatorName && this.templateDir == templateDir
      ensures this.inputSpec == inputSpec && this.outputDir == outputDir
      ensures this.globalProperties == globalProperties
      ensures this.apiNameSuffix == apiNameSuffix && this.modelPackage == modelPackage
      ensures this.apiPackage == apiPackage
      ensures this.additionalProperties == additionalProperties
      ensures this.artifactVersion == artifactVersion && this.groupId == groupId
      ensures this.artifactId == artifactId && this.invokerPackage == invokerPackage
      ensures this.packageName == packageName
    {
      this.generatorName, this.templateDir, this.inputSpec, this.outputDir :=
        generatorName, templateDir, inputSpec, outputDir;
      this.globalProperties := globalProperties;
      this.apiNameSuffix, this.modelPackage, this.apiPackage := apiNameSuffix, modelPackage, apiPackage;
      this.additionalProperties := additionalProperties;
      this.artifactVersion, this.groupId, this.artifactId := artifactVersion, groupId, artifactId;
      this.invokerPackage, this.packageName := invokerPackage, packageName;
    }
  }

  /**
   * The command object: its four options are `lateinit` properties, so an option the
   * command line did not give is `None` and reading it throws.
   */
  class OpenApiSdkGenerator {
    var inputFile: Option<string>
    var outputDirectory: Option<string>
    var namespace: Option<string>
    var version: Option<string>

    constructor (inputFile: Option<string>, outputDirectory: Option<string>,
                 namespace: Option<string>, version: Option<string>)
      ensures this.inputFile == inputFile && this.outputDirectory == outputDirectory
      ensures this.namespace == namespace && this.version == version
    {
      this.inputFile := inputFile;
      this.outputDirectory := outputDirectory;
      this.namespace := namespace;
      this.version := version;
    }

    static function Uninitialized(name: string): string {
      "lateinit property " + name + " has not been initialized"
    }

    /**
     * The values `run()` reads while configuring the generator, or the message of the
     * first exception raised on the way: a missing option, or a failure of the spec
     * file preparation (`specFile`: the path it writes, or its error message).
     */
    function Configure(specFile: Result<string, string>): (r: Result<Settings, string>)
      reads this
      ensures r.Ok? <==> namespace.Some? && inputFile.Some? && specFile.Ok?
                         && outputDirectory.Some? && version.Some?
      ensures r.Ok? ==> r.value == Settings(NormalizePackageName(namespace.value), namespace.value,
                                            specFile.value, outputDirectory.value, version.value)
      ensures namespace.None? ==> r == Err(Uninitialized("namespace"))
      ensures namespace.Some? && inputFile.None? ==> r == Err(Uninitialized("inputFile"))
      ensures namespace.Some? && inputFile.Some? && specFile.Err? ==> r == Err(specFile.error)
    {
      if namespace.None? then Err(Uninitialized("namespace"))
      else if inputFile.None? then Err(Uninitialized("inputFile"))
      else if specFile.Err? then Err(specFile.error)
      else if outputDirectory.None? then Err(Uninitialized("outputDirectory"))
      else if version.None? then Err(Uninitialized("version"))
      else Ok(Settings(NormalizePackageName(namespace.value), namespace.value, specFile.value,
                       outputDirectory.value, version.value))
    }

    /**
     * `run()`. The spec preparation and the generator itself are foreign: their
     * outcomes are inputs (`generation` is `Some(message)` when the generator throws).
     * Every exception is caught and reported on stderr: the failure message, the
     * exception's message, then its stack trace, whose text (`stackTrace`, as
     * `printStackTrace()` writes it for the caught exception) is foreign; nothing escapes.
     */
    method Run(specFile: Result<string, string>, generation: Option<string>, stackTrace: string)
      returns (config: CodegenConfigurator?, generated: bool, stderr: seq<string>)
      ensures config != null <==> Configure(specFile).Ok?
      ensures generated <==> Configure(specFile).Ok? && generation.None?
      ensures generated ==> stderr == []
      ensures Configure(specFile).Err? ==> stderr == [FAILURE_MESSAGE, Configure(specFile).error, stackTrace]
      ensures Configure(specFile).Ok? && generation.Some? ==> stderr == [FAILURE_MESSAGE, generation.value, stackTrace]
      ensures config != null ==> fresh(config) && Configured(config, Configure(specFile).value)
    {
      var c := Configure(specFile);
      if c.Err? {
        return null, false, [FAILURE_MESSAGE, c.error, stackTrace];
      }
      config := Apply(c.value);
      if generation.Some? {
        return config, false, [FAILURE_MESSAGE, generation.value, stackTrace];
      }
      return config, true, [];
    }
  }

  /** What `run()` reads: the normalised name, the raw namespace, spec path, output directory, version. */
  datatype Settings = Settings(pkg: string, namespace: string, spec: string, outputDir: string, version: string)

  /** The three additional properties `run()` sets after the artifact coordinates. */
  function LateProperties(st: Settings): Dict<string, PropertyValue> {
    [("normalizedNamespace", Str(st.pkg)), ("projectName", Str(PACKAGE_PREFIX + st.pkg)),
     ("namespace", Str(st.namespace))]
  }

  /** The configurator holds exactly the settings `run()` applies. */
  ghost predicate Configured(config: CodegenConfigurator, st: Settings)
    reads config
  {
    config.generatorName == GENERATOR_NAME &&
    config.templateDir == TEMPLATE_DIR &&
    config.inputSpec == st.spec && config.outputDir == st.outputDir &&
    config.globalProperties == GLOBAL_PROPERTIES &&
    config.apiNameSuffix == API_NAME_SUFFIX && config.modelPackage == MODEL_PACKAGE &&
    config.apiPackage == API_PACKAGE &&
    config.additionalProperties == EARLY_PROPERTIES + LateProperties(st) &&
    config.artifactVersion == st.version && config.groupId == GROUP_ID &&
    config.artifactId == ARTIFACT_PREFIX + st.pkg &&
    config.invokerPackage == GROUP_ID && config.packageName == PACKAGE_PREFIX + st.pkg
  }

  /** The `CodegenConfigurator().apply { ... }` block. */
  method Apply(st: Settings) returns (config: CodegenConfigurator)
    ensures fresh(config) && Configured(config, st)
  {
    // the three `addGlobalProperty` calls, on a fresh configurator
    var globals := GLOBAL_PROPERTIES;
    // `enumPropertyNaming` and `sortParamsByRequiredFlag`, then the three after the coordinates
    var additional := EARLY_PROPERTIES;
    additional := additional + LateProperties(st);
    config := new CodegenConfigurator(GENERATOR_NAME, TEMPLATE_DIR, st.spec, st.outputDir, globals,
                                      API_NAME_SUFFIX, MODEL_PACKAGE, API_PACKAGE, additional,
                                      st.version, GROUP_ID, ARTIFACT_PREFIX + st.pkg, GROUP_ID,
                                      PACKAGE_PREFIX + st.pkg);
  }

  /** The additional properties in the order `run()` sets them. */
  lemma AdditionalPropertiesOrder(st: Settings)
    ensures Keys(EARLY_PROPERTIES + LateProperties(st))
            == ["enumPropertyNaming", "sortParamsByRequiredFlag", "normalizedNamespace", "projectName", "namespace"]
  {
    KeysConcat(EARLY_PROPERTIES, LateProperties(st));
  }
}
