/** Dimensions of the play field (the canvas), in pixels. */
module Canvas {
  const Width: int := 400
  const Height: int := 600
}
