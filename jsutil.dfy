/** Small helpers of src/detail/JSUtil.cpp: the property-attribute flag
    union, the exception helper, and the engine constants for attributes. */
module JSUtil {

  /** HAL's JSPropertyAttribute enumeration. */
  datatype PropertyAttribute = None | ReadOnly | DontEnum | DontDelete

  /** JSPropertyAttributes, the engine's bit set of attributes. */
  type Attributes = bv32

  /** The engine's flag values (kJSPropertyAttributeNone, ...ReadOnly,
      ...DontEnum, ...DontDelete). */
  const AttributeNone: Attributes := 0
  const AttributeReadOnly: Attributes := 2
  const AttributeDontEnum: Attributes := 4
  const AttributeDontDelete: Attributes := 8

  /** The engine flag of one HAL attribute. */
  function Flag(a: PropertyAttribute): Attributes
  {
    match a
    case None => AttributeNone
    case ReadOnly => AttributeReadOnly
    case DontEnum => AttributeDontEnum
    case DontDelete => AttributeDontDelete
  }

  /** The flag word a set of attributes stands for, one bit per member that
      has a flag. */
  function Mask(attributes: set<PropertyAttribute>): Attributes
  {
    (if ReadOnly in attributes then AttributeReadOnly else 0)
    | (if DontEnum in attributes then AttributeDontEnum else 0)
    | (if DontDelete in attributes then AttributeDontDelete else 0)
  }

  lemma MaskAdd(attributes: set<PropertyAttribute>, a: PropertyAttribute)
    ensures Mask(attributes + {a}) == Mask(attributes) | Flag(a)
  {
  }

  /** ToJSPropertyAttributes (src/detail/JSUtil.cpp:127-150): OR the flag of
      every member into the result, in whatever order the set yields them. */
  method ToJSPropertyAttributes(attributes: set<PropertyAttribute>) returns (result: Attributes)
    ensures result == Mask(attributes)
  {
    result := AttributeNone;
    var remaining := attributes;
    while remaining != {}
      invariant remaining <= attributes
      invariant result == Mask(attributes - remaining)
      decreases |remaining|
    {
      var attribute :| attribute in remaining;
      MaskAdd(attributes - remaining, attribute);
      assert attributes - (remaining - {attribute}) == (attributes - remaining) + {attribute};
      match attribute {
        case None => result := result | AttributeNone;
        case ReadOnly => result := result | AttributeReadOnly;
        case DontEnum => result := result | AttributeDontEnum;
        case DontDelete => result := result | AttributeDontDelete;
      }
      remaining := remaining - {attribute};
    }
  }

  /** The result does not depend on the order of iteration: the flags of a
      union are the union of the flags, and those of a set the union of its
      singletons' flags. */
  lemma MaskUnion(s: set<PropertyAttribute>, t: set<PropertyAttribute>)
    ensures Mask(s + t) == Mask(s) | Mask(t)
  {
  }

  /** The empty set and {None} give kJSPropertyAttributeNone. */
  lemma MaskOfNone()
    ensures Mask({}) == AttributeNone
    ensures Mask({None}) == AttributeNone
  {
  }

  /** The flag word records exactly which of ReadOnly, DontEnum and
      DontDelete are members. */
  lemma MaskMembership(attributes: set<PropertyAttribute>, a: PropertyAttribute)
    requires a != None
    ensures a in attributes <==> Mask(attributes) & Flag(a) != 0
  {
  }

  /** std::runtime_error as the layer throws it: a message only. */
  datatype RuntimeError = RuntimeError(message: string)

  /** ThrowRuntimeError (src/detail/JSUtil.cpp:18-24): the exception carries
      the message; the component name is dropped. */
  function ThrowRuntimeError(component: string, message: string): (e: RuntimeError)
    ensures e.message == message
  {
    RuntimeError(message)
  }

  /** Two calls that differ only in the component throw the same
      exception. */
  lemma ComponentIsDiscarded(c1: string, c2: string, message: string)
    ensures ThrowRuntimeError(c1, message) == ThrowRuntimeError(c2, message)
  {
  }
}
