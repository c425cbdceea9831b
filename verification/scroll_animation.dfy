/** `ScrollAnimation.generateVariants`: which axis a block slides along and from which side. */
module ScrollAnimation {
  import opened Maybe

  datatype Axis = X | Y

  /** The hidden and visible positions on the chosen axis (opacity, blur and scale are left out). */
  datatype Variants = Variants(axis: Axis, hidden: int, visible: int)

  /** Distance, in pixels, from which a block slides in. */
  const Offset: int := 60

  const DefaultDirection: string := "down"

  /** Horizontal exactly for "left"/"right"; starts 60 px on the positive side exactly for "right"/"down"; always ends at 0. */
  function GenerateVariants(dir: string): (v: Variants)
    ensures v.axis == X <==> dir == "left" || dir == "right"
    ensures v.hidden == Offset || v.hidden == -Offset
    ensures v.hidden > 0 <==> dir == "right" || dir == "down"
    ensures v.visible == 0
  {
    var axis := if dir == "left" || dir == "right" then X else Y;
    var value := if dir == "right" || dir == "down" then 60 else -60;
    Variants(axis, value, 0)
  }

  /** Reads the direction back from the variants. */
  function DirectionOf(v: Variants): Option<string>
  {
    if v.visible != 0 then None
    else if v.axis == X && v.hidden == Offset then Some("right")
    else if v.axis == X && v.hidden == -Offset then Some("left")
    else if v.axis == Y && v.hidden == Offset then Some("down")
    else if v.axis == Y && v.hidden == -Offset then Some("up")
    else None
  }

  /** The four directions get four different variants, and each can be read back. */
  lemma DirectionsRoundTrip(dir: string)
    requires dir in ["up", "down", "left", "right"]
    ensures DirectionOf(GenerateVariants(dir)) == Some(dir)
  {
  }

  /** Without a `direction` prop a block slides vertically in from 60 px below its place. */
  lemma DefaultSlidesDown()
    ensures GenerateVariants(DefaultDirection) == Variants(Y, Offset, 0)
    ensures DirectionOf(GenerateVariants(DefaultDirection)) == Some(DefaultDirection)
  {
  }

  /** Any other string is treated as "up": vertical, from 60 px above. */
  lemma UnknownIsUp(dir: string)
    requires dir !in ["up", "down", "left", "right"]
    ensures GenerateVariants(dir) == GenerateVariants("up")
    ensures DirectionOf(GenerateVariants(dir)) == Some("up")
  {
  }
}
