/** The handler's configuration keys, their compiled-in defaults, and the
    parameter catalogue it offers the host for editing. */
module Parameters {
  import opened Values

  /** Every key this handler owns starts with this namespace. */
  const Namespace: string := "zigbee_levelreverse_"
  const ReverseOnOffKey: string := Namespace + "reverseonoff"
  const ReversePercentKey: string := Namespace + "reversepercent"

  const ReverseOnOffDefault: bool := false
  const ReversePercentDefault: bool := false

  /** The value types a configuration parameter can declare. */
  datatype ParameterType = Text | Integer | Decimal | Boolean

  /** One editable parameter: its key, value type, label and default value as text. */
  datatype Descriptor = Descriptor(name: string, paramType: ParameterType, labelText: string, defaultText: string)

  /** `Boolean.toString`. */
  function BoolText(b: bool): string
  {
    if b then "true" else "false"
  }

  /** The two keys the update protocol acts on, both inside the namespace. */
  predicate Recognised(key: string)
  {
    key == ReverseOnOffKey || key == ReversePercentKey
  }

  lemma RecognisedKeysInNamespace(key: string)
    requires Recognised(key)
    ensures StartsWith(key, Namespace)
    ensures key != Namespace
  {
  }

  /** `getConfiguration`: the catalogue, built afresh on every call and
      independent of any handler's current flags. */
  function GetConfiguration(): (params: seq<Descriptor>)
    ensures |params| == 2
    ensures params[0].name == ReverseOnOffKey && params[1].name == ReversePercentKey
    ensures forall i :: 0 <= i < |params| ==> params[i].paramType == Boolean
    ensures params[0].defaultText == BoolText(ReverseOnOffDefault)
    ensures params[1].defaultText == BoolText(ReversePercentDefault)
  {
    [ Descriptor(ReverseOnOffKey, Boolean, "Invert On/Off Commands", BoolText(ReverseOnOffDefault)),
      Descriptor(ReversePercentKey, Boolean, "Invert Percent Commands", BoolText(ReversePercentDefault)) ]
  }

  /** Every catalogue entry names a distinct key that the update protocol
      recognises, and every recognised key has an entry. */
  lemma CatalogueCoversRecognisedKeys()
    ensures forall i :: 0 <= i < |GetConfiguration()| ==>
      Recognised(GetConfiguration()[i].name) && StartsWith(GetConfiguration()[i].name, Namespace)
    ensures forall key :: Recognised(key) ==>
      exists i :: 0 <= i < |GetConfiguration()| && GetConfiguration()[i].name == key
    ensures GetConfiguration()[0].name != GetConfiguration()[1].name
  {
    forall key | Recognised(key)
      ensures exists i :: 0 <= i < |GetConfiguration()| && GetConfiguration()[i].name == key
    {
      var i := if key == ReverseOnOffKey then 0 else 1;
      assert GetConfiguration()[i].name == key;
    }
  }
}
