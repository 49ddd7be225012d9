/** Values the web clients pass between their recording, queueing and
    upload code. Client instants are milliseconds since the epoch. */
module ClientTypes {
  import opened Common

  /** One recorded sample as it is queued and posted to
      `/api/walks/{walkId}/points`: latitude, longitude, timestamp and the
      optional elevation. */
  datatype BatchPoint = BatchPoint(lat: real, lon: real, ts: int, elev: Option<real>)
}
