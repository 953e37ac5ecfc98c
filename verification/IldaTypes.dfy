/** Device-independent frames; coordinates are exact reals, 1.0 being full scale. */
module IldaTypes {
  import opened Bytes

  datatype IldaPoint = IldaPoint(x: real, y: real, z: real, r: Byte, g: Byte, b: Byte, blanked: bool)

  datatype IldaFrame = IldaFrame(name: seq<Byte>, company: seq<Byte>, is3D: bool, points: seq<IldaPoint>)

  type IldaShow = seq<IldaFrame>
}
