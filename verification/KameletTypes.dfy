/** The structs of the Kamelet API. A struct is a value whose pointers, slices and maps
    are references; the mutable cells are those of module GoHeap. */
module KameletTypes {
  import opened GoHeap

  newtype byte = x: int | 0 <= x < 256
  newtype int64 = x: int | -0x8000_0000_0000_0000 <= x < 0x8000_0000_0000_0000

  /** json.Number is a defined string type. */
  type Number = string
  type RawMessage = Slice<byte>

  datatype JSON = JSON(raw: RawMessage)
  datatype Template = Template(raw: RawMessage)
  datatype ExternalDocumentation = ExternalDocumentation(description: string, url: string)

  // The wider structs group their fields: the ones that hold no reference together, and
  // in JSONSchemaProp the pointers that bound a number or a size and the JSON-valued ones.

  datatype PropText = PropText(
    id: string, deprecated: bool, description: string, kind: string, format: string, title: string,
    exclusiveMaximum: bool, exclusiveMinimum: bool, pattern: string, uniqueItems: bool, nullable: bool)

  datatype Range<T> = Range(max: Ref?<T>, min: Ref?<T>)

  datatype PropBounds = PropBounds(
    value: Range<Number>, multipleOf: Ref?<Number>,
    lengths: Range<int64>, items: Range<int64>, properties: Range<int64>)

  datatype PropExamples = PropExamples(
    default: Ref?<JSON>, enumeration: Slice<JSON>, example: Ref?<JSON>, xDescriptors: Slice<string>)

  datatype JSONSchemaProp = JSONSchemaProp(text: PropText, bounds: PropBounds, examples: PropExamples)

  datatype SchemaText = SchemaText(id: string, description: string, title: string, schema: string, kind: string)

  datatype JSONSchemaProps = JSONSchemaProps(
    text: SchemaText, properties: MapRef?<string, JSONSchemaProp>, required: Slice<string>,
    example: Ref?<JSON>, externalDocs: Ref?<ExternalDocumentation>)

  datatype HeaderSpec = HeaderSpec(kind: string, title: string, description: string, required: bool, default: string)

  datatype DataTypeText = DataTypeText(scheme: string, format: string, description: string, mediaType: string)

  datatype DataTypeSpec = DataTypeSpec(
    text: DataTypeText, dependencies: Slice<string>, headers: MapRef?<string, HeaderSpec>,
    schema: Ref?<JSONSchemaProps>)

  datatype DataTypesSpec = DataTypesSpec(
    default: string, types: MapRef?<string, DataTypeSpec>, headers: MapRef?<string, HeaderSpec>)

  datatype EventTypeSpec = EventTypeSpec(mediaType: string, schema: Ref?<JSONSchemaProps>)

  datatype DataText = DataText(
    name: string, path: string, content: string, contentRef: string, contentKey: string,
    contentType: string, compression: bool)

  datatype SourceText = SourceText(language: string, loader: string, kind: string, fromKamelet: bool)

  datatype SourceSpec = SourceSpec(
    data: DataText, rawContent: Slice<byte>, text: SourceText,
    interceptors: Slice<string>, propertyNames: Slice<string>)

  datatype KameletSpecBase = KameletSpecBase(
    definition: Ref?<JSONSchemaProps>, sources: Slice<SourceSpec>, template: Ref?<Template>,
    types: MapRef?<string, EventTypeSpec>, dataTypes: MapRef?<string, DataTypesSpec>,
    dependencies: Slice<string>)

  datatype KameletSpec = KameletSpec(base: KameletSpecBase, versions: MapRef?<string, KameletSpecBase>)

  datatype TypeMeta = TypeMeta(kind: string, apiVersion: string)

  /** Object metadata is a plain value here: its own deep copy belongs to another library. */
  datatype ObjectMeta = ObjectMeta(
    name: string, namespace: string, labels: map<string, string>, annotations: map<string, string>)
}
