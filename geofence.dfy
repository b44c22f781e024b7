/** validateCheckinLocation: the configured rectangle, bounds included. */
module Geofence {
  import opened Wrappers
  import opened ApiResult
  import opened Entities

  const MsgLocationMissing: string := "打卡地点不能为空"
  const MsgLocationValid: string := "打卡地点有效"
  /** The out-of-range message without the four bounds the service formats into it. */
  const MsgLocationOutOfRange: string := "打卡地点超出有效范围，请在指定区域内打卡"

  predicate InBounds(cfg: Config, lat: real, lon: real) {
    cfg.minLatitude <= lat <= cfg.maxLatitude && cfg.minLongitude <= lon <= cfg.maxLongitude
  }

  /**
   * A missing coordinate is an error; so is a point outside the rectangle.  A valid point
   * goes through success(T data) with the text as data, so the message is the default one.
   */
  function ValidateCheckinLocation(cfg: Config, lat: Option<real>, lon: Option<real>): (r: Result<Payload>)
    ensures r.IsSuccess() <==> lat.Some? && lon.Some? && InBounds(cfg, lat.value, lon.value)
    ensures r.IsSuccess() ==> r == SuccessWith(Text(MsgLocationValid))
    ensures !r.IsSuccess() ==> r.code == ErrorCode && r.data.None?
    ensures lat.None? || lon.None? ==> r.msg == MsgLocationMissing
  {
    if lat.None? || lon.None? then Error(MsgLocationMissing)
    else if !InBounds(cfg, lat.value, lon.value) then Error(MsgLocationOutOfRange)
    else SuccessWith(Text(MsgLocationValid))
  }

  /** All four corners of a non-empty rectangle are accepted: the bounds are inclusive. */
  lemma CornersAccepted(cfg: Config)
    requires cfg.minLatitude <= cfg.maxLatitude && cfg.minLongitude <= cfg.maxLongitude
    ensures ValidateCheckinLocation(cfg, Some(cfg.minLatitude), Some(cfg.minLongitude)).IsSuccess()
    ensures ValidateCheckinLocation(cfg, Some(cfg.minLatitude), Some(cfg.maxLongitude)).IsSuccess()
    ensures ValidateCheckinLocation(cfg, Some(cfg.maxLatitude), Some(cfg.minLongitude)).IsSuccess()
    ensures ValidateCheckinLocation(cfg, Some(cfg.maxLatitude), Some(cfg.maxLongitude)).IsSuccess()
  {
  }

  /** Against the box [30, 31] x [120, 121], (30.5, 120.5) passes and latitude 91 fails. */
  lemma ExampleBox(cfg: Config)
    requires cfg.minLatitude == 30.0 && cfg.maxLatitude == 31.0
    requires cfg.minLongitude == 120.0 && cfg.maxLongitude == 121.0
    ensures ValidateCheckinLocation(cfg, Some(30.5), Some(120.5)).IsSuccess()
    ensures !ValidateCheckinLocation(cfg, Some(91.0), Some(0.0)).IsSuccess()
  {
  }
}
