/** `extract_action_properties`: the identity, declared type and named
    sub-properties of one `NWActionConfig` element. */
module ActionExtractor {
  import opened Wrappers
  import opened ElementTree

  const PropertyTag := "property"

  /** The record handed to the translation step. */
  datatype ActionData = ActionData(
    id: string,
    name: string,
    declaredType: string,
    properties: map<string, string>)

  /** `prop.get('name', '')` */
  function PropName(doc: Document, p: nat): (r: string)
    requires p < |doc|
  {
    Get(doc[p], "name", "")
  }

  /** `prop.text or ''` */
  function PropValue(doc: Document, p: nat): (r: string)
    requires p < |doc|
  {
    doc[p].text.GetOr("")
  }

  /** The properties dictionary after the loop has visited `props` in order:
      a property with a non-empty name stores its value under that name. */
  function PropertiesOf(doc: Document, props: seq<nat>): (r: map<string, string>)
    requires forall i :: 0 <= i < |props| ==> props[i] < |doc|
  {
    if props == [] then map[]
    else
      var m := PropertiesOf(doc, props[..|props| - 1]);
      var p := props[|props| - 1];
      if PropName(doc, p) != "" then m[PropName(doc, p) := PropValue(doc, p)] else m
  }

  /** The record the extractor builds for `action`. */
  function ActionDataOf(doc: Document, action: nat): (r: ActionData)
    requires ChildrenFollow(doc) && action < |doc|
  {
    ActionData(
      Get(doc[action], "id", ""),
      Get(doc[action], "name", ""),
      Get(doc[action], "type", ""),
      PropertiesOf(doc, FindAll(doc, action, PropertyTag)))
  }

  method ExtractActionProperties(doc: Document, action: nat) returns (data: ActionData)
    requires ChildrenFollow(doc) && action < |doc|
    ensures data == ActionDataOf(doc, action)
  {
    var properties: map<string, string> := map[];
    var props := FindAll(doc, action, PropertyTag);
    var i := 0;
    while i < |props|
      invariant 0 <= i <= |props|
      invariant properties == PropertiesOf(doc, props[..i])
    {
      var prop := props[i];
      var propName := Get(doc[prop], "name", "");
      var propValue := if doc[prop].text.Some? then doc[prop].text.value else "";
      if propName != "" {
        properties := properties[propName := propValue];
      }
      assert props[..i + 1][..i] == props[..i];
      i := i + 1;
    }
    assert props[..i] == props;
    data := ActionData(
      Get(doc[action], "id", ""),
      Get(doc[action], "name", ""),
      Get(doc[action], "type", ""),
      properties);
  }

  /** `props[i]` has a non-empty name that no later property repeats. */
  ghost predicate LastNamed(doc: Document, props: seq<nat>, i: nat)
    requires forall i :: 0 <= i < |props| ==> props[i] < |doc|
  {
    && i < |props|
    && PropName(doc, props[i]) != ""
    && forall j :: i < j < |props| ==> PropName(doc, props[j]) != PropName(doc, props[i])
  }

  /** The keys are exactly the non-empty names among `props`. */
  lemma {:induction false} PropertiesKeys(doc: Document, props: seq<nat>)
    requires forall i :: 0 <= i < |props| ==> props[i] < |doc|
    ensures forall k :: k in PropertiesOf(doc, props) <==>
      k != "" && exists i :: 0 <= i < |props| && PropName(doc, props[i]) == k
  {
    if props != [] {
      var init := props[..|props| - 1];
      var last := props[|props| - 1];
      PropertiesKeys(doc, init);
      forall k
        ensures k in PropertiesOf(doc, props) <==>
          k != "" && exists i :: 0 <= i < |props| && PropName(doc, props[i]) == k
      {
        if k in PropertiesOf(doc, init) {
          var i :| 0 <= i < |init| && PropName(doc, init[i]) == k;
          assert props[i] == init[i];
        }
        if k != "" && PropName(doc, last) != k && exists i :: 0 <= i < |props| && PropName(doc, props[i]) == k {
          var i :| 0 <= i < |props| && PropName(doc, props[i]) == k;
          assert i < |init| && init[i] == props[i];
        }
      }
    }
  }

  /** Each name holds the value of the last property that carries it. */
  lemma {:induction false} PropertiesLastWins(doc: Document, props: seq<nat>, i: nat)
    requires forall i :: 0 <= i < |props| ==> props[i] < |doc|
    requires LastNamed(doc, props, i)
    ensures PropName(doc, props[i]) in PropertiesOf(doc, props)
    ensures PropertiesOf(doc, props)[PropName(doc, props[i])] == PropValue(doc, props[i])
  {
    var init := props[..|props| - 1];
    if i < |init| {
      assert init[i] == props[i];
      assert forall j :: i < j < |init| ==> init[j] == props[j];
      assert LastNamed(doc, init, i);
      PropertiesLastWins(doc, init, i);
    }
  }

  /** The extracted properties are the `property` elements below the action,
      at any depth, with a non-empty name; a later duplicate name overwrites
      an earlier one; `id`, `name` and `type` default to the empty string. */
  lemma ActionDataShape(doc: Document, action: nat)
    requires ChildrenFollow(doc) && action < |doc|
    ensures var data := ActionDataOf(doc, action);
      && data.id == Get(doc[action], "id", "")
      && data.name == Get(doc[action], "name", "")
      && data.declaredType == Get(doc[action], "type", "")
      && forall k :: k in data.properties <==>
           k != "" && exists d :: d in Descendants(doc, action) && doc[d].tag == PropertyTag && PropName(doc, d) == k
  {
    var props := FindAll(doc, action, PropertyTag);
    PropertiesKeys(doc, props);
    forall k
      ensures k in PropertiesOf(doc, props) <==>
        k != "" && exists d :: d in Descendants(doc, action) && doc[d].tag == PropertyTag && PropName(doc, d) == k
    {
      if k != "" && exists d :: d in Descendants(doc, action) && doc[d].tag == PropertyTag && PropName(doc, d) == k {
        var d :| d in Descendants(doc, action) && doc[d].tag == PropertyTag && PropName(doc, d) == k;
        assert d in props;
        var i :| 0 <= i < |props| && props[i] == d;
      }
    }
  }
}
