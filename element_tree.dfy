/**
 * The parsed feed document as the XML library hands it to the proxy: a tree
 * of elements, each with a tag that parsing fixes and an ordered list of
 * children that can be edited in place.
 */
module ElementTree {

  /**
   * One XML element. Text, tail and attributes never influence the
   * truncation and are not modelled; only the tag and the child list are.
   */
  class Element {
    const tag: string
    var children: seq<Element>

    constructor (tag: string, children: seq<Element>)
      ensures this.tag == tag && this.children == children
    {
      this.tag := tag;
      this.children := children;
    }

    /** `del self[i]`: removes the i-th child and shifts the later ones down by one. */
    method DeleteChild(i: nat)
      requires i < |children|
      modifies this
      ensures |children| == old(|children|) - 1
      ensures children[..i] == old(children[..i])
      ensures children[i..] == old(children[i + 1..])
    {
      children := children[..i] + children[i + 1..];
    }
  }
}
