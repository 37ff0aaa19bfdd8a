/**
 * Listener values and the identity key under which the registry files them.
 *
 * A PHP callable is one of three shapes: a function name, a method callable
 * `[owner, 'method']` whose owner is an object or a class name, or an object
 * (a Closure or an object with `__invoke`).  `ListenerKey` is the model of
 * `getListenerIndex`: objects are identified by their handle, method callables
 * by owner and method name, and function names by their text.
 */
module Callables {

  /** The identity of a live object, standing for what `spl_object_hash` distinguishes. */
  type ObjectId = nat

  /** The receiver of a method callable: an object, or a class for a static method. */
  datatype Owner = Instance(id: ObjectId) | Class(name: string)

  /** A callable as the registry sees it. */
  datatype Listener =
    | Named(name: string)                   // 'strlen', or the static form 'Foo::bar'
    | Method(owner: Owner, name: string)  // [$object, 'm'] or ['Foo', 'm']
    | Obj(id: ObjectId)                     // a Closure or an invokable object

  /** Argument values forwarded by an emission. */
  datatype Value =
    | NullValue
    | BoolValue(b: bool)
    | IntValue(i: int)
    | StringValue(s: string)
    | ObjectValue(id: ObjectId)

  /**
   * A listener key.  An object handle and a handle joined to a method name are
   * kept apart from plain text: the model does not let an object hash collide
   * with a function name.
   */
  datatype Key =
    | ObjectHash(id: ObjectId)                    // the hash of the listener object
    | ObjectMethod(id: ObjectId, name: string)  // the owner's hash, '::', the method
    | Text(text: string)                          // a class name, '::', the method; or a function name

  const Separator: string := "::"

  /**
   * The key a listener is stored under (getListenerIndex).  Objects and
   * instance methods are keyed by the object's identity; function names and
   * static methods by text, so the two kinds of key never meet.
   */
  function ListenerKey(l: Listener): (k: Key)
    ensures k.ObjectHash? <==> l.Obj?
    ensures k.ObjectMethod? <==> l.Method? && l.owner.Instance?
    ensures k.Text? <==> l.Named? || (l.Method? && l.owner.Class?)
    ensures k.ObjectHash? ==> k.id == l.id
    ensures k.ObjectMethod? ==> k.id == l.owner.id && k.name == l.name
  {
    match l
    case Obj(id) => ObjectHash(id)
    case Method(Instance(id), m) => ObjectMethod(id, m)
    case Method(Class(c), m) => Text(c + Separator + m)
    case Named(n) => Text(n)
  }

  predicate ColonFree(s: string)
  {
    forall i :: 0 <= i < |s| ==> s[i] != ':'
  }

  /**
   * PHP function and class names are identifiers and never contain ':'.  (A
   * method name may be anything: only the class part matters for splitting.)
   */
  predicate PlainIdentifiers(l: Listener)
  {
    match l
    case Named(n) => ColonFree(n)
    case Method(Class(c), _) => ColonFree(c)
    case Method(Instance(_), _) => true
    case Obj(_) => true
  }

  /** A closure or invokable object shares its key with no other listener. */
  lemma ObjectKeyIsIdentity(id: ObjectId, l: Listener)
    ensures ListenerKey(l) == ListenerKey(Obj(id)) <==> l == Obj(id)
  {
  }

  /** An instance method's key is shared only by the same method on the same instance. */
  lemma InstanceMethodKeyIsIdentity(id: ObjectId, m: string, l: Listener)
    ensures ListenerKey(l) == ListenerKey(Method(Instance(id), m)) <==> l == Method(Instance(id), m)
  {
  }

  /** The array form ['Foo', 'bar'] and the string form 'Foo::bar' are one callable and share a key. */
  lemma StaticMethodFormsShareKey(c: string, m: string)
    ensures ListenerKey(Named(c + Separator + m)) == ListenerKey(Method(Class(c), m))
  {
  }

  /** In `c + '::' + m` with a colon-free `c`, the first ':' sits right after `c`. */
  lemma FirstColonAfterClass(c: string, m: string)
    requires ColonFree(c)
    ensures (c + Separator + m)[|c|] == ':'
    ensures forall i :: 0 <= i < |c| ==> (c + Separator + m)[i] != ':'
  {
  }

  /** Joining a colon-free class name to a method with '::' can be undone. */
  lemma SplitAtSeparator(c1: string, m1: string, c2: string, m2: string)
    requires ColonFree(c1) && ColonFree(c2)
    requires c1 + Separator + m1 == c2 + Separator + m2
    ensures c1 == c2 && m1 == m2
  {
    var w := c1 + Separator + m1;
    FirstColonAfterClass(c1, m1);
    FirstColonAfterClass(c2, m2);
    assert |c1| == |c2|;
    assert c1 == w[..|c1|] == c2;
    assert m1 == w[|c1| + 2..] == m2;
  }

  /** On listeners written with plain identifiers, the key determines the listener. */
  lemma KeyIdentifiesListener(l1: Listener, l2: Listener)
    requires PlainIdentifiers(l1) && PlainIdentifiers(l2)
    ensures ListenerKey(l1) == ListenerKey(l2) <==> l1 == l2
  {
    if ListenerKey(l1) == ListenerKey(l2) {
      match l1 {
        case Method(Class(c1), m1) =>
          var w := c1 + Separator + m1;
          assert w[|c1|] == ':';
          if l2.Method? && l2.owner.Class? {
            SplitAtSeparator(c1, m1, l2.owner.name, l2.name);
          }
        case Named(n1) =>
          if l2.Method? && l2.owner.Class? {
            FirstColonAfterClass(l2.owner.name, l2.name);
          }
        case _ =>
      }
    }
  }
}
