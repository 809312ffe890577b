/**
 * The texts the editor shows: the built-in defaults, which `options.strings`
 * may replace. This editor builds its options as an empty object, so no
 * application text is given in it; the `strings` map stands for the texts an
 * application could pass.
 */
module Texts {
  /** The built-in texts (`defaultsStrings`), by identifier; an unknown identifier has none. */
  function Default(id: string): string {
    match id
    case "boldexample" => "strong text"
    case "italicexample" => "italic text"
    case "linkdescription" => "enter link description here"
    case "quoteexample" => "Blockquote"
    case "codeexample" => "enter code here"
    case "imagedescription" => "enter image description here"
    case "headingexample" => "Heading"
    case _ => ""
  }

  /**
   * `getString(id)`: the application's text for `id` when it gave a
   * non-empty one, the built-in text otherwise.
   */
  function GetString(strings: map<string, string>, id: string): (r: string)
    ensures id in strings && strings[id] != "" ==> r == strings[id]
    ensures id !in strings || strings[id] == "" ==> r == Default(id)
  {
    if id in strings && strings[id] != "" then strings[id] else Default(id)
  }
}
