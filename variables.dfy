/** The tunable parameters that the source keeps in the global `Variables`
    table (src/variables.js). The source reads the table at every use, so
    the model passes a `Settings` value to every operation that reads it. */
module Variables {
  datatype Shape = Square | Circle | Random

  datatype Settings = Settings(
    starShape: Shape,
    maxVelocity: real,
    spawnInterval: real,
    starSize: real,
    expansionRate: real,
    /** Read as `MAX_STAR_COUNT` by src/state.js; absent from the table. */
    maxStarCount: int,
    /** Read as `LIFESPAN` (seconds) by src/state.js; absent from the table. */
    lifespan: real)
}
