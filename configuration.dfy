/**
 * The rule engine's parsed configuration tree, as the factory uses it.
 *
 * A node is a value: its element name, its attributes, its message overrides and
 * its child nodes. `kind` records whether the node is the engine's writable
 * DefaultConfiguration class, the only one offering addChild and removeChild.
 */
module Configurations {

  datatype Kind = DefaultConfiguration | OtherConfiguration

  datatype Configuration = Configuration(
    kind: Kind,
    name: string,
    attributes: map<string, string>,
    messages: map<string, string>,
    children: seq<Configuration>)

  /**
   * DefaultConfiguration.addAttribute: attribute values cannot be replaced, only
   * appended to, so adding a name that is already present joins the two values
   * with a comma.
   */
  function AddAttribute(attributes: map<string, string>, name: string, value: string): (r: map<string, string>)
    ensures r.Keys == attributes.Keys + {name}
    ensures forall a :: a in attributes && a != name ==> r[a] == attributes[a]
    ensures name !in attributes ==> r[name] == value
    ensures name in attributes ==> attributes[name] < r[name] && r[name][|attributes[name]|..] == "," + value
  {
    if name in attributes then attributes[name := attributes[name] + "," + value]
    else attributes[name := value]
  }

  /**
   * DefaultConfiguration.removeChild: the child list loses the first node equal
   * to `child` and keeps every other node in order. (Stated for any element type,
   * so that proofs about it need not look inside configuration nodes.)
   */
  function RemoveChild<T(==)>(children: seq<T>, child: T): (r: seq<T>)
    ensures child !in children ==> r == children
    ensures child in children ==> |r| == |children| - 1
  {
    if children == [] then []
    else
      assert children == [children[0]] + children[1..];
      if children[0] == child then children[1..]
      else [children[0]] + RemoveChild(children[1..], child)
  }

  /** Removing a node that does not occur before position |prefix| removes that very position. */
  lemma {:induction false} RemoveChildAt<T>(prefix: seq<T>, child: T, rest: seq<T>)
    requires child !in prefix
    ensures RemoveChild(prefix + ([child] + rest), child) == prefix + rest
  {
    if prefix == [] {
      assert prefix + ([child] + rest) == [child] + rest;
    } else {
      var head := prefix[0];
      var tail := prefix[1..] + ([child] + rest);
      calc {
        RemoveChild(prefix + ([child] + rest), child);
        { assert prefix + ([child] + rest) == [head] + tail; }
        RemoveChild([head] + tail, child);
        { assert ([head] + tail)[1..] == tail; }
        [head] + RemoveChild(tail, child);
        { RemoveChildAt(prefix[1..], child, rest); }
        [head] + (prefix[1..] + rest);
        { assert prefix == [head] + prefix[1..]; }
        prefix + rest;
      }
    }
  }
}
