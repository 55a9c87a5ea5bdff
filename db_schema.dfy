/** The database rows the leaderboard and the heart-rate routes read
    (lib/db/schema.ts). Timestamps are UTC milliseconds. */
module DbSchema {
  import opened Wrappers

  /** A row of `athletes`. */
  datatype DbAthlete = DbAthlete(
    id: int,
    username: string,
    firstname: string,
    lastname: string,
    profilePictureUrl: Option<string>,
    maxHeartrate: Option<real>)

  /** A row of `activities`. */
  datatype DbActivity = DbActivity(
    id: int,
    athleteId: int,
    activityType: string,
    name: string,
    distance: Option<real>,
    movingTime: Option<real>,
    totalElevationGain: Option<real>,
    startDate: int,
    averageHeartrate: Option<real>,
    maxHeartrate: Option<real>,
    weightedScore: real)
}
