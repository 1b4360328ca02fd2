/**
 * An extension-registry configuration element, reduced to plain values:
 * its tag name, its attributes, its child elements and the namespace of
 * the extension that declares it.  Also the tag and attribute names of the
 * navigator content extension point that the navigator reads.
 */
module ConfigurationElements {
  import opened Wrappers

  const TAG_COMMON_WIZARD: string := "commonWizard"
  const TAG_FILTER_EXPRESSION: string := "filterExpression"
  const ATT_ID: string := "id"
  const ATT_NAME: string := "name"
  const ATT_DESCRIPTION: string := "description"
  const ATT_ACTIVE_BY_DEFAULT: string := "activeByDefault"
  const ATT_CLASS: string := "class"

  datatype ConfigElement = ConfigElement(
    name: string,
    attributes: map<string, string>,
    children: seq<ConfigElement>,
    namespace: string)
  {
    /** The attribute's value, or `None` (Java `null`) when it is not given. */
    function GetAttribute(key: string): (r: Option<string>)
      ensures r.Some? <==> key in attributes
      ensures r.Some? ==> r.value == attributes[key]
    {
      if key in attributes then Some(attributes[key]) else None
    }

    /** The children whose tag is `tag`, in document order. */
    function GetChildren(tag: string): (r: seq<ConfigElement>)
      ensures |r| <= |children|
      ensures forall i | 0 <= i < |r| :: r[i].name == tag
      ensures forall c :: c in r <==> c in children && c.name == tag
      ensures forall c :: multiset(r)[c] == if c.name == tag then multiset(children)[c] else 0
    {
      ChildrenNamed(children, tag)
    }
  }

  function ChildrenNamed(cs: seq<ConfigElement>, tag: string): (r: seq<ConfigElement>)
    ensures |r| <= |cs|
    ensures forall i | 0 <= i < |r| :: r[i].name == tag
    ensures forall c :: c in r <==> c in cs && c.name == tag
    ensures forall c :: multiset(r)[c] == if c.name == tag then multiset(cs)[c] else 0
    decreases |cs|
  {
    if cs == [] then []
    else
      var rest := ChildrenNamed(cs[1..], tag);
      assert cs == [cs[0]] + cs[1..];
      assert multiset(cs) == multiset{cs[0]} + multiset(cs[1..]);
      assert forall c :: c in cs <==> c == cs[0] || c in cs[1..];
      if cs[0].name == tag then [cs[0]] + rest else rest
  }
}
