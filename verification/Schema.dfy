/** The parsed TL schema. */
module Schemas {
  import opened Bytes

  datatype FlagCondition = FlagCondition(field: string, bit: nat, isTrue: bool)

  datatype Param = Param(name: string, typ: string, flag: Option<FlagCondition>, isVector: bool, elemType: string)

  datatype Definition = Definition(name: string, id: nat, params: seq<Param>, resultType: string, isFunction: bool)

  datatype Schema = Schema(constructors: seq<Definition>, functions: seq<Definition>)
}
