/** JSExportObject (src/JSExportObject.cpp, include/HAL/JSExportObject.hpp):
    the native base of exported classes. It keeps raw handles of its context
    and of its JavaScript object, with no reference of their own, and wraps
    them in facades on request. */
module ExportObjects {
  import opened Common
  import opened Retain
  import Values
  import Objects
  import Contexts

  class JSExportObject {
    /** js_context_ref__. */
    var contextRef: Handle
    /** js_object_ref__. */
    var objectRef: Handle

    /** JSExportObject(const JSContext&) (src/JSExportObject.cpp:13-15): the
        context's handle is recorded; the object handle keeps its null
        initializer (include/HAL/JSExportObject.hpp:37-38). */
    constructor (context: Contexts.JSContext)
      ensures contextRef == context.ref && objectRef == Null
    {
      contextRef := context.ref;
      objectRef := Null;
    }

    /** postInitialize (src/JSExportObject.cpp:17-19): records the handle of
        the JavaScript object; the context handle stays. */
    method PostInitialize(jsObject: Objects.JSObject)
      modifies this
      ensures objectRef == jsObject.ref && contextRef == old(contextRef)
    {
      objectRef := jsObject.ref;
    }

    /** postCallAsConstructor (src/JSExportObject.cpp:21-23): does nothing. */
    method PostCallAsConstructor(context: Contexts.JSContext, arguments: seq<Values.JSValue>)
      ensures unchanged(this)
    {
    }

    /** get_context (src/JSExportObject.cpp:29-31): a JSContext made from the
        recorded handle with JSContext(JSContextRef), which records the
        engine's global context (`engineGlobal`) if none is set yet. */
    method GetContext(global: Contexts.GlobalContext, engineGlobal: Handle) returns (context: Contexts.JSContext)
      modifies global
      ensures fresh(context) && context.ref == contextRef
      ensures old(global.ref) == Null ==> global.ref == engineGlobal
      ensures old(global.ref) != Null ==> global.ref == old(global.ref)
    {
      context := new Contexts.JSContext(global, contextRef, engineGlobal);
    }

    /** get_object (src/JSExportObject.cpp:33-37): asserts that both handles
        are set, so postInitialize must have run, and wraps the object handle
        in a JSObject of the recorded context, which protects it once. */
    method GetObject(table: RetainTable, global: Contexts.GlobalContext, engineGlobal: Handle) returns (o: Objects.JSObject)
      requires contextRef != Null && objectRef != Null
      requires table.Valid()
      modifies table, global
      ensures table.Valid() && fresh(o)
      ensures o.ref == objectRef && o.context == contextRef
      ensures table.counts == Protected(old(table.counts), objectRef)
      ensures old(global.ref) == Null ==> global.ref == engineGlobal
      ensures old(global.ref) != Null ==> global.ref == old(global.ref)
    {
      var context := GetContext(global, engineGlobal);
      o := new Objects.JSObject(table, context.ref, objectRef);
    }
  }
}
