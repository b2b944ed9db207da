/** Attribute dictionaries as the graphs carry them: node and edge data are
    Python dicts from attribute names to values. */
module Attributes {

  /** The attribute values the model distinguishes: text (labels, hints,
      node names), lists of text (style classes) and numbers. */
  datatype Value = Text(text: string) | TextList(items: seq<string>) | Number(n: int)

  type Attrs = map<string, Value>

  const LabelKey: string := "label"
  const WidthKey: string := "__cyto_width"
  const HeightKey: string := "__cyto_height"
  const ClassesKey: string := "cyto_classes"
  const IdKey: string := "id"
  const ValueKey: string := "value"
  const NameKey: string := "name"
  const SourceKey: string := "source"
  const TargetKey: string := "target"

  /** The attribute names the conversion reads or writes are all different. */
  lemma DistinctKeys()
    ensures LabelKey != WidthKey && LabelKey != HeightKey && WidthKey != HeightKey
    ensures IdKey != LabelKey && IdKey != WidthKey && IdKey != HeightKey
    ensures ClassesKey != LabelKey && ClassesKey != WidthKey && ClassesKey != HeightKey
    ensures ClassesKey != IdKey && ClassesKey != ValueKey && ClassesKey != NameKey
    ensures ClassesKey != SourceKey && ClassesKey != TargetKey && SourceKey != TargetKey
    ensures IdKey != ValueKey && IdKey != NameKey && ValueKey != NameKey
    ensures LabelKey != IdKey && LabelKey != ValueKey && LabelKey != NameKey
    ensures WidthKey != IdKey && WidthKey != ValueKey && WidthKey != NameKey
    ensures HeightKey != IdKey && HeightKey != ValueKey && HeightKey != NameKey
  {
    assert LabelKey[0] == 'l' && WidthKey[2] == 'c' && HeightKey[7] == 'h' && ClassesKey[0] == 'c';
    assert IdKey[0] == 'i' && ValueKey[0] == 'v' && NameKey[0] == 'n' && SourceKey[0] == 's' && TargetKey[0] == 't';
    assert WidthKey[7] == 'w' && |HeightKey| != |WidthKey|;
  }

  /** Python truthiness of a value. */
  predicate Truthy(v: Value) {
    match v
    case Text(s) => s != []
    case TextList(items) => items != []
    case Number(n) => n != 0
  }
}
