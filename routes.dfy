/** The route rule and its response, shared by the route table and the matcher. */
module Routes {

  /** The source's `int`: 32-bit two's complement. */
  newtype int32 = x: int | -0x8000_0000 <= x < 0x8000_0000

  const MaxInt32: int32 := 0x7fff_ffff
  const MinInt32: int32 := -0x8000_0000

  /** `v + 1` in unchecked 32-bit arithmetic: `int.MaxValue + 1` wraps round. */
  function NextVersion(v: int32): (w: int32)
    ensures v < MaxInt32 ==> w as int == v as int + 1
    ensures v == MaxInt32 ==> w == MinInt32
    ensures w != v
  {
    if v == MaxInt32 then MinInt32 else v + 1
  }

  /** The configured response: status, headers and body. */
  datatype RouteResponse = RouteResponse(statusCode: int32, headers: map<string, string>, body: string)

  /** A route rule: method, glob pattern, response, the enabled flag and the version. */
  datatype RouteConfiguration = RouteConfiguration(
    httpMethod: string,
    pathPattern: string,
    response: RouteResponse,
    enabled: bool,
    version: int32)
}
