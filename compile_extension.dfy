/**
 * Per-source-set compile settings: the target language, the schema file
 * patterns and the generator options, with the language mapped to the
 * generator name the Thrift compiler expects after `--gen`.
 */
module CompileExtension {

  datatype CompileExtension = CompileExtension(
    name: string,
    language: string,
    files: seq<string>,
    options: seq<string>)

  /** The settings a fresh extension named `name` starts with. */
  function Default(name: string): (e: CompileExtension)
    ensures e.name == name
    ensures e.language == "java" && Generator(e.language) == "java"
    ensures e.files == ["**/*.thrift"]
    ensures e.options == []
  {
    CompileExtension(name, "java", ["**/*.thrift"], [])
  }

  /** The Thrift generator for a language: two friendly names are shortened, all others pass through. */
  function Generator(language: string): (g: string)
    ensures language == "python" ==> g == "py"
    ensures language == "javascript" ==> g == "js"
    ensures language != "python" && language != "javascript" ==> g == language
    ensures g != "python" && g != "javascript"
  {
    match language
    case "python" => "py"
    case "javascript" => "js"
    case _ => language
  }

  /** A generator name is its own generator. */
  lemma GeneratorIdempotent(language: string)
    ensures Generator(Generator(language)) == Generator(language)
  {
  }

  /** Two languages share a generator only when one is the friendly name of the other. */
  lemma GeneratorCollisions(a: string, b: string)
    requires a != b && Generator(a) == Generator(b)
    ensures (a == "python" && b == "py") || (a == "py" && b == "python")
         || (a == "javascript" && b == "js") || (a == "js" && b == "javascript")
  {
  }
}
