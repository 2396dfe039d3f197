/** The descriptor messages that describe a file, as far as names, references and
    extension numbers go. */
module DescriptorProtos {
  import opened Options

  datatype FieldKind = PrimitiveField | EnumField | MessageField

  datatype FieldProto = FieldProto(name: string, number: int, extendee: Option<string>,
                                   typeName: Option<string>, kind: Option<FieldKind>)

  datatype EnumProto = EnumProto(name: string, values: seq<string>)

  /** Extension numbers from `start` to before `end`. */
  datatype RangeProto = RangeProto(start: int, end: int)

  datatype MessageProto = MessageProto(name: string, fields: seq<FieldProto>, nested: seq<MessageProto>,
                                       enums: seq<EnumProto>, ranges: seq<RangeProto>, extensions: seq<FieldProto>)

  datatype MethodProto = MethodProto(name: string, inputType: string, outputType: string)

  datatype ServiceProto = ServiceProto(name: string, methods: seq<MethodProto>)

  datatype FileProto = FileProto(name: string, package: string,
                                 dependencies: seq<string>, publicDependencies: seq<int>,
                                 weakDependencies: seq<int>,
                                 messages: seq<MessageProto>, enums: seq<EnumProto>,
                                 services: seq<ServiceProto>, extensions: seq<FieldProto>)
}
