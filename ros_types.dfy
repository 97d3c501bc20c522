/**
 * `C_TO_ROS_TYPE` (tools/bsk_message_converter.py, lines 17-29): the fixed
 * table from C primitive type names to ROS 2 `.msg` primitive type names.
 */
module RosTypes {

  const CToRosType: map<string, string> := map[
    "double" := "float64",
    "float" := "float32",
    "int" := "int32",
    "int32_t" := "int32",
    "int64_t" := "int64",
    "uint32_t" := "uint32",
    "uint64_t" := "uint64",
    "uint8_t" := "uint8",
    "int8_t" := "int8",
    "char" := "int8",
    "bool" := "bool"
  ]

  /** The `.msg` primitive types the converter can emit. */
  const RosPrimitives: set<string> :=
    {"float64", "float32", "int32", "int64", "uint32", "uint64", "uint8", "int8", "bool"}

  /** The table knows exactly eleven C types, `enum` not among them, and maps
      them onto exactly the nine `.msg` primitives. */
  lemma TableShape()
    ensures CToRosType.Keys == {"double", "float", "int", "int32_t", "int64_t", "uint32_t",
                                "uint64_t", "uint8_t", "int8_t", "char", "bool"}
    ensures "enum" !in CToRosType
    ensures CToRosType.Values == RosPrimitives
  {
    assert CToRosType["double"] == "float64" && CToRosType["float"] == "float32";
    assert CToRosType["int"] == "int32" && CToRosType["int64_t"] == "int64";
    assert CToRosType["uint32_t"] == "uint32" && CToRosType["uint64_t"] == "uint64";
    assert CToRosType["uint8_t"] == "uint8" && CToRosType["int8_t"] == "int8";
    assert CToRosType["bool"] == "bool";
  }
}
