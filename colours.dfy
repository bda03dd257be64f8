/** The two RGB tones both renderers paint with. */
module Colours {

  datatype Rgb = Rgb(red: int, green: int, blue: int)

  /** Background, and the tone of a slice on a cell boundary. */
  const White: Rgb := Rgb(255, 255, 255)

  /** The tone of a slice inside a cell. */
  const Black: Rgb := Rgb(0, 0, 0)
}
