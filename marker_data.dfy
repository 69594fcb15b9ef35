/** The hotspot descriptor record of the showroom (`BlindboxMarker`). */
module MarkerData {
  /** The record's `type` field admits the single literal "blindbox". */
  datatype MarkerType = Blindbox

  datatype BlindboxMarker = BlindboxMarker(
    id: string,
    kind: MarkerType,
    address: string,
    contractAbiUrl: string,
    image: string)

  /**
   * The static marker list the live showroom is built over. Its one id is
   * drawn by `randomString` when the module loads; that draw is random, so
   * the id is a parameter here.
   */
  function BlindboxMarkers(randomId: string): (ms: seq<BlindboxMarker>)
    ensures |ms| == 1 && ms[0].id == randomId && ms[0].kind == Blindbox
  {
    [BlindboxMarker(randomId, Blindbox, "0x9a23512f7aAA2EE7A938c1223aCbC028c5653A00",
                    "/contracts/CutieSquidsNFT.json", "/blindMarker/unpack.png")]
  }
}
