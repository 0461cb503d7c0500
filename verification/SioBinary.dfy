/** Binary payloads of Socket.IO events (socketio/packet.go): the binary leaves of a value tree are lifted into a
    list of attachments and replaced by numbered placeholders, and put back on the other side. */
module BinaryTrees {
  import opened Text

  /** The dynamic values a packet carries. `Number` is a number kept as text; `Opaque` stands for every other
      type, which these functions pass through. */
  datatype Value =
    | Null
    | Bool(b: bool)
    | Int(n: int)
    | Float(r: real)
    | Number(text: string)
    | Str(s: string)
    | Opaque(id: int)
    | Bin(bytes: string)
    | Arr(items: seq<Value>)
    | Obj(fields: map<string, Value>)

  const PLACEHOLDER := "_placeholder"
  const NUM := "num"

  predicate HasBinary(v: Value) {
    match v
    case Bin(_) => true
    case Arr(items) => exists i :: 0 <= i < |items| && HasBinary(items[i])
    case Obj(fields) => exists k :: k in fields && HasBinary(fields[k])
    case _ => false
  }

  // ---------------------------------------------------------------- putting leaves back

  predicate IsPlaceholder(fields: map<string, Value>) {
    PLACEHOLDER in fields && fields[PLACEHOLDER] == Bool(true)
  }

  /** Conversion of a float to an integer, towards zero. */
  function Truncate(r: real): (n: int)
    ensures r >= 0.0 ==> n as real <= r < n as real + 1.0
    ensures r < 0.0 ==> n as real - 1.0 < r <= n as real
  {
    if r >= 0.0 then r.Floor else -((-r).Floor)
  }

  /** The attachment a placeholder asks for; -1 when its number is missing or no number. */
  function AttachmentIndex(fields: map<string, Value>): (r: int) {
    if NUM !in fields then -1
    else
      match fields[NUM]
      case Float(x) => Truncate(x)
      case Int(n) => n
      case Number(t) => ParseInt(t).value
      case _ => -1
  }

  function Resolve(fields: map<string, Value>, buffers: seq<string>): (r: Value) {
    var idx := AttachmentIndex(fields);
    if 0 <= idx < |buffers| then Bin(buffers[idx]) else Obj(fields)
  }

  /** A placeholder may hold its number as an integer, a float or a number kept as text. */
  lemma PlaceholderForms(i: nat, buffers: seq<string>)
    requires i < |buffers| && i <= MAX_INT64
    ensures Resolve(map[PLACEHOLDER := Bool(true), NUM := Int(i)], buffers) == Bin(buffers[i])
    ensures Resolve(map[PLACEHOLDER := Bool(true), NUM := Float(i as real)], buffers) == Bin(buffers[i])
    ensures Resolve(map[PLACEHOLDER := Bool(true), NUM := Number(NatText(i))], buffers) == Bin(buffers[i])
  {
    ParseIntOfText(i);
    hide ParseInt, NatText;
  }

  function Reconstruct(v: Value, buffers: seq<string>): (r: Value) {
    match v
    case Obj(fields) =>
      if IsPlaceholder(fields) then Resolve(fields, buffers)
      else Obj(map k | k in fields :: Reconstruct(fields[k], buffers))
    case Arr(items) => Arr(seq(|items|, i requires 0 <= i < |items| => Reconstruct(items[i], buffers)))
    case _ => v
  }

  // ---------------------------------------------------------------- lifting leaves out

  predicate IsPlaceholderFor(w: Value, i: nat) {
    w == Obj(map[PLACEHOLDER := Bool(true), NUM := Int(i)]) ||
    w == Obj(map[PLACEHOLDER := Bool(true), NUM := Float(i as real)])
  }

  /** `w` is `v` with every binary leaf replaced by a placeholder that points at its content. */
  ghost predicate Stripped(v: Value, w: Value, buffers: seq<string>) {
    match v
    case Bin(b) => exists i :: 0 <= i < |buffers| && buffers[i] == b && IsPlaceholderFor(w, i)
    case Arr(items) =>
      w.Arr? && |w.items| == |items| && forall i :: 0 <= i < |items| ==> Stripped(items[i], w.items[i], buffers)
    case Obj(fields) =>
      w.Obj? && w.fields.Keys == fields.Keys && forall k :: k in fields ==> Stripped(fields[k], w.fields[k], buffers)
    case _ => w == v
  }

  lemma {:induction false} StrippedGrows(v: Value, w: Value, a: seq<string>, b: seq<string>)
    requires Stripped(v, w, a) && a <= b
    ensures Stripped(v, w, b)
  {
    match v
    case Bin(x) =>
      var i :| 0 <= i < |a| && a[i] == x && IsPlaceholderFor(w, i);
      assert b[i] == x;
    case Arr(items) =>
      forall i | 0 <= i < |items| ensures Stripped(items[i], w.items[i], b) {
        StrippedGrows(items[i], w.items[i], a, b);
      }
    case Obj(fields) =>
      forall k | k in fields ensures Stripped(fields[k], w.fields[k], b) {
        StrippedGrows(fields[k], w.fields[k], a, b);
      }
    case _ =>
  }

  /** One step from a container to a child, and the values reached by a path of steps. */
  datatype Step = Index(i: nat) | Field(k: string)

  function At(v: Value, path: seq<Step>): (r: Option<Value>)
    decreases |path|
  {
    if path == [] then Some(v)
    else
      match path[0]
      case Index(i) => if v.Arr? && i < |v.items| then At(v.items[i], path[1..]) else None
      case Field(k) => if v.Obj? && k in v.fields then At(v.fields[k], path[1..]) else None
  }

  /** The attachments numbered from `start` are exactly the binary leaves of `v`: the j-th one is the leaf at
      `paths[j]`, where `w` has the placeholder with that number. */
  ghost predicate Numbered(v: Value, w: Value, start: nat, buffers: seq<string>, paths: seq<seq<Step>>) {
    && |buffers| == start + |paths|
    && (forall j :: 0 <= j < |paths| ==>
          && At(v, paths[j]) == Some(Bin(buffers[start + j]))
          && At(w, paths[j]) == Some(PlaceholderAt(start + j)))
    && (forall p :: At(v, p).Some? && At(v, p).value.Bin? ==> p in paths)
  }

  function PlaceholderAt(i: nat): (r: Value) {
    Obj(map[PLACEHOLDER := Bool(true), NUM := Int(i)])
  }

  /** No number is used twice. */
  lemma PathsDistinct(v: Value, w: Value, start: nat, buffers: seq<string>, paths: seq<seq<Step>>)
    requires Numbered(v, w, start, buffers, paths)
    ensures forall i, j :: 0 <= i < j < |paths| ==> paths[i] != paths[j]
  {
    forall i, j | 0 <= i < j < |paths| ensures paths[i] != paths[j] {
      assert PlaceholderAt(start + i).fields[NUM] != PlaceholderAt(start + j).fields[NUM];
    }
  }

  function Under(s: Step, paths: seq<seq<Step>>): (r: seq<seq<Step>>)
    ensures |r| == |paths| && forall j :: 0 <= j < |paths| ==> r[j] == [s] + paths[j]
  {
    seq(|paths|, j requires 0 <= j < |paths| => [s] + paths[j])
  }

  /** The numbering of the children visited so far, as a numbering of their container. */
  ghost predicate NumberedChildren(
    v: Value, w: Value, visited: set<Step>, start: nat, buffers: seq<string>, paths: seq<seq<Step>>)
  {
    && |buffers| == start + |paths|
    && (forall j :: 0 <= j < |paths| ==>
          && At(v, paths[j]) == Some(Bin(buffers[start + j]))
          && At(w, paths[j]) == Some(PlaceholderAt(start + j))
          && paths[j] != [] && paths[j][0] in visited)
    && (forall p :: At(v, p).Some? && At(v, p).value.Bin? && p != [] && p[0] in visited ==> p in paths)
  }

  method DeconstructInto(data: Value, buffers: seq<string>)
    returns (result: Value, out: seq<string>, ghost paths: seq<seq<Step>>)
    ensures buffers <= out
    ensures Stripped(data, result, out)
    ensures Numbered(data, result, |buffers|, out, paths)
    decreases data, 1
  {
    match data {
      case Bin(b) =>
        result, out, paths := PlaceholderAt(|buffers|), buffers + [b], [[]];
        assert out[|buffers|] == b && IsPlaceholderFor(result, |buffers|);
        LeafPaths(data);
      case Arr(items) =>
        result, out, paths := DeconstructItems(data, buffers);
      case Obj(fields) =>
        result, out, paths := DeconstructFields(data, buffers);
      case _ =>
        result, out, paths := data, buffers, [];
        LeafPaths(data);
    }
  }

  lemma LeafPaths(v: Value)
    requires !v.Arr? && !v.Obj?
    ensures forall p :: At(v, p).Some? ==> p == []
  {
  }

  /** Extends the numbering by one child. */
  lemma NumberedMore(v: Value, w: Value, w': Value, s: Step, child: Value, child': Value, visited: set<Step>,
                     start: nat, before: seq<string>, paths: seq<seq<Step>>, after: seq<string>, more: seq<seq<Step>>)
    requires NumberedChildren(v, w, visited, start, before, paths) && s !in visited && before <= after
    requires Numbered(child, child', |before|, after, more)
    requires At(v, [s]) == Some(child) && At(w', [s]) == Some(child')
    requires forall p :: p != [] && p[0] in visited ==> At(w', p) == At(w, p)
    ensures NumberedChildren(v, w', visited + {s}, start, after, paths + Under(s, more))
  {
    var all := paths + Under(s, more);
    forall j | 0 <= j < |all|
      ensures At(v, all[j]) == Some(Bin(after[start + j])) && At(w', all[j]) == Some(PlaceholderAt(start + j))
      ensures all[j] != [] && all[j][0] in visited + {s}
    {
      if j >= |paths| {
        Descend(v, s, child, more[j - |paths|]);
        Descend(w', s, child', more[j - |paths|]);
      }
    }
    forall p | At(v, p).Some? && At(v, p).value.Bin? && p != [] && p[0] in visited + {s} ensures p in all {
      if p[0] == s {
        Descend(v, s, child, p[1..]);
        assert [s] + p[1..] == p;
        var j :| 0 <= j < |more| && more[j] == p[1..];
        assert all[|paths| + j] == p;
      }
    }
  }

  lemma Descend(v: Value, s: Step, child: Value, path: seq<Step>)
    requires At(v, [s]) == Some(child)
    ensures At(v, [s] + path) == At(child, path)
  {
    assert ([s] + path)[1..] == path && [s][1..] == [];
  }

  method DeconstructItems(data: Value, buffers: seq<string>)
    returns (result: Value, out: seq<string>, ghost paths: seq<seq<Step>>)
    requires data.Arr?
    ensures buffers <= out && Stripped(data, result, out) && Numbered(data, result, |buffers|, out, paths)
    decreases data, 0
  {
    var done: seq<Value> := [];
    out, paths := buffers, [];
    for i := 0 to |data.items|
      invariant |done| == i && buffers <= out
      invariant forall j :: 0 <= j < i ==> Stripped(data.items[j], done[j], out)
      invariant NumberedChildren(data, Arr(done), set j | 0 <= j < i :: Index(j), |buffers|, out, paths)
    {
      var item, grown;
      ghost var more;
      item, grown, more := DeconstructInto(data.items[i], out);
      forall j | 0 <= j < i ensures Stripped(data.items[j], done[j], grown) {
        StrippedGrows(data.items[j], done[j], out, grown);
      }
      var next := done + [item];
      NumberedMore(data, Arr(done), Arr(next), Index(i), data.items[i], item, set j | 0 <= j < i :: Index(j),
                   |buffers|, out, paths, grown, more);
      assert (set j | 0 <= j < i :: Index(j)) + {Index(i)} == set j | 0 <= j < i + 1 :: Index(j);
      out, paths, done := grown, paths + Under(Index(i), more), next;
    }
    result := Arr(done);
  }

  /** The fields are visited in any order. */
  method DeconstructFields(data: Value, buffers: seq<string>)
    returns (result: Value, out: seq<string>, ghost paths: seq<seq<Step>>)
    requires data.Obj?
    ensures buffers <= out && Stripped(data, result, out) && Numbered(data, result, |buffers|, out, paths)
    decreases data, 0
  {
    hide IsPlaceholderFor, PlaceholderAt;
    var done: map<string, Value> := map[];
    var left := data.fields.Keys;
    out, paths := buffers, [];
    while left != {}
      invariant left <= data.fields.Keys && done.Keys == data.fields.Keys - left && buffers <= out
      invariant forall k :: k in done ==> Stripped(data.fields[k], done[k], out)
      invariant NumberedChildren(data, Obj(done), set k | k in done :: Field(k), |buffers|, out, paths)
    {
      var key :| key in left;
      var val, grown;
      ghost var more;
      val, grown, more := DeconstructInto(data.fields[key], out);
      forall k | k in done ensures Stripped(data.fields[k], done[k], grown) {
        StrippedGrows(data.fields[k], done[k], out, grown);
      }
      var next := done[key := val];
      NumberedMore(data, Obj(done), Obj(next), Field(key), data.fields[key], val, set k | k in done :: Field(k),
                   |buffers|, out, paths, grown, more);
      assert (set k | k in done :: Field(k)) + {Field(key)} == set k | k in next :: Field(k);
      out, paths, done, left := grown, paths + Under(Field(key), more), next, left - {key};
    }
    result := Obj(done);
  }

  // ---------------------------------------------------------------- what lifting guarantees

  lemma {:induction false} StrippedHasNoBinary(v: Value, w: Value, buffers: seq<string>)
    requires Stripped(v, w, buffers)
    ensures !HasBinary(w)
  {
    match v
    case Arr(items) =>
      forall i | 0 <= i < |items| ensures !HasBinary(w.items[i]) {
        StrippedHasNoBinary(items[i], w.items[i], buffers);
      }
    case Obj(fields) =>
      forall k | k in fields ensures !HasBinary(w.fields[k]) {
        StrippedHasNoBinary(fields[k], w.fields[k], buffers);
      }
    case _ =>
  }

  lemma {:induction false} StrippedUnchanged(v: Value, w: Value, buffers: seq<string>)
    requires Stripped(v, w, buffers) && !HasBinary(v)
    ensures w == v
  {
    match v
    case Arr(items) =>
      forall i | 0 <= i < |items| ensures w.items[i] == items[i] {
        StrippedUnchanged(items[i], w.items[i], buffers);
      }
      assert w.items == items;
    case Obj(fields) =>
      forall k | k in fields ensures w.fields[k] == fields[k] {
        StrippedUnchanged(fields[k], w.fields[k], buffers);
      }
      assert w.fields == fields;
    case _ =>
  }

  lemma {:induction false} BinaryAtPath(v: Value, path: seq<Step>)
    requires At(v, path).Some? && At(v, path).value.Bin?
    ensures HasBinary(v)
    decreases |path|
  {
    if path != [] {
      match path[0]
      case Index(i) => BinaryAtPath(v.items[i], path[1..]);
      case Field(k) => BinaryAtPath(v.fields[k], path[1..]);
    }
  }

  lemma {:induction false} PathToBinary(v: Value) returns (path: seq<Step>)
    requires HasBinary(v)
    ensures At(v, path).Some? && At(v, path).value.Bin?
  {
    match v
    case Arr(items) =>
      var i :| 0 <= i < |items| && HasBinary(items[i]);
      var rest := PathToBinary(items[i]);
      path := [Index(i)] + rest;
      assert path[1..] == rest;
    case Obj(fields) =>
      var k :| k in fields && HasBinary(fields[k]);
      var rest := PathToBinary(fields[k]);
      path := [Field(k)] + rest;
      assert path[1..] == rest;
    case _ =>
      path := [];
  }

  /** Objects that already look like placeholders must hold no binary leaf and point at no attachment. */
  predicate Faithful(v: Value, attachments: nat) {
    match v
    case Arr(items) => forall i :: 0 <= i < |items| ==> Faithful(items[i], attachments)
    case Obj(fields) =>
      if IsPlaceholder(fields) then !HasBinary(v) && !(0 <= AttachmentIndex(fields) < attachments)
      else forall k :: k in fields ==> Faithful(fields[k], attachments)
    case _ => true
  }

  lemma PlaceholderResolves(w: Value, i: nat, buffers: seq<string>)
    requires IsPlaceholderFor(w, i) && i < |buffers|
    ensures Reconstruct(w, buffers) == Bin(buffers[i])
  {
    assert (i as real).Floor == i;
  }

  /** Putting the leaves back restores the original exactly when the original is faithful. */
  lemma {:induction false} ReconstructIff(v: Value, w: Value, buffers: seq<string>)
    requires Stripped(v, w, buffers)
    ensures Reconstruct(w, buffers) == v <==> Faithful(v, |buffers|)
  {
    match v
    case Bin(b) =>
      var i :| 0 <= i < |buffers| && buffers[i] == b && IsPlaceholderFor(w, i);
      PlaceholderResolves(w, i, buffers);
    case Arr(items) =>
      forall i | 0 <= i < |items|
        ensures Reconstruct(w.items[i], buffers) == items[i] <==> Faithful(items[i], |buffers|)
      {
        ReconstructIff(items[i], w.items[i], buffers);
      }
      ItemsBack(items, w, buffers);
    case Obj(fields) =>
      if IsPlaceholder(fields) {
        LookalikeBack(v, w, buffers);
      } else {
        forall k | k in fields
          ensures Reconstruct(w.fields[k], buffers) == fields[k] <==> Faithful(fields[k], |buffers|)
        {
          ReconstructIff(fields[k], w.fields[k], buffers);
        }
        FieldsBack(fields, w, buffers);
      }
    case _ =>
  }

  lemma ItemsBack(items: seq<Value>, w: Value, buffers: seq<string>)
    requires w.Arr? && |w.items| == |items|
    ensures Reconstruct(w, buffers) == Arr(items) <==>
            forall i :: 0 <= i < |items| ==> Reconstruct(w.items[i], buffers) == items[i]
  {
    var r := Reconstruct(w, buffers).items;
    assert r == items <==> forall i :: 0 <= i < |items| ==> r[i] == items[i];
  }

  lemma FieldsBack(fields: map<string, Value>, w: Value, buffers: seq<string>)
    requires Stripped(Obj(fields), w, buffers) && !IsPlaceholder(fields)
    ensures Reconstruct(w, buffers) == Obj(fields) <==>
            forall k :: k in fields ==> Reconstruct(w.fields[k], buffers) == fields[k]
  {
    MarkKept(fields, w, buffers);
    var r := Reconstruct(w, buffers).fields;
    assert r == fields <==> forall k :: k in fields ==> r[k] == fields[k];
  }

  /** Lifting leaves out neither makes nor unmakes a placeholder mark. */
  lemma MarkKept(fields: map<string, Value>, w: Value, buffers: seq<string>)
    requires Stripped(Obj(fields), w, buffers)
    ensures IsPlaceholder(w.fields) <==> IsPlaceholder(fields)
  {
    if PLACEHOLDER in fields {
      assert Stripped(fields[PLACEHOLDER], w.fields[PLACEHOLDER], buffers);
    }
  }

  lemma LookalikeBack(v: Value, w: Value, buffers: seq<string>)
    requires v.Obj? && IsPlaceholder(v.fields) && Stripped(v, w, buffers)
    ensures Reconstruct(w, buffers) == v <==> Faithful(v, |buffers|)
  {
    MarkKept(v.fields, w, buffers);
    StrippedHasNoBinary(v, w, buffers);
    if !HasBinary(v) {
      StrippedUnchanged(v, w, buffers);
    }
  }

  /** `deconstructBinary`: the stripped tree has no binary leaf, the attachments are numbered 0 to n-1 in the order
      the leaves were met, and there are any exactly when the tree has a binary leaf. */
  method Deconstruct(data: Value) returns (result: Value, buffers: seq<string>, ghost paths: seq<seq<Step>>)
    ensures Stripped(data, result, buffers) && Numbered(data, result, 0, buffers, paths)
    ensures !HasBinary(result)
    ensures HasBinary(data) <==> |buffers| > 0
    ensures Reconstruct(result, buffers) == data <==> Faithful(data, |buffers|)
  {
    result, buffers, paths := DeconstructInto(data, []);
    StrippedHasNoBinary(data, result, buffers);
    ReconstructIff(data, result, buffers);
    AttachmentsIff(data, result, buffers, paths);
  }

  lemma AttachmentsIff(v: Value, w: Value, buffers: seq<string>, paths: seq<seq<Step>>)
    requires Numbered(v, w, 0, buffers, paths)
    ensures HasBinary(v) <==> |buffers| > 0
  {
    if |buffers| > 0 {
      BinaryAtPath(v, paths[0]);
    }
    if HasBinary(v) {
      var p := PathToBinary(v);
      assert p in paths;
    }
  }

  /** An object that looks like the placeholder of an attachment comes back as that attachment. */
  lemma LookalikeLost(bytes: string)
    ensures var v := Arr([Bin(bytes), PlaceholderAt(0)]);
            var w := Arr([PlaceholderAt(0), PlaceholderAt(0)]);
            && Stripped(v, w, [bytes]) && !Faithful(v, 1) && Reconstruct(w, [bytes]) == Arr([Bin(bytes), Bin(bytes)])
  {
    var v, w := Arr([Bin(bytes), PlaceholderAt(0)]), Arr([PlaceholderAt(0), PlaceholderAt(0)]);
    assert IsPlaceholderFor(PlaceholderAt(0), 0);
    PlaceholderResolves(PlaceholderAt(0), 0, [bytes]);
    assert Stripped(PlaceholderAt(0), PlaceholderAt(0), [bytes]);
    assert !Faithful(v.items[1], 1);
    assert Reconstruct(w, [bytes]).items == [Bin(bytes), Bin(bytes)];
  }

  /** A tree without any placeholder look-alike. */
  predicate NoLookalike(v: Value) {
    match v
    case Arr(items) => forall i :: 0 <= i < |items| ==> NoLookalike(items[i])
    case Obj(fields) => !IsPlaceholder(fields) && forall k :: k in fields ==> NoLookalike(fields[k])
    case _ => true
  }

  lemma {:induction false} NoLookalikeIsFaithful(v: Value, attachments: nat)
    requires NoLookalike(v)
    ensures Faithful(v, attachments)
  {
    match v
    case Arr(items) =>
      forall i | 0 <= i < |items| ensures Faithful(items[i], attachments) {
        NoLookalikeIsFaithful(items[i], attachments);
      }
    case Obj(fields) =>
      forall k | k in fields ensures Faithful(fields[k], attachments) {
        NoLookalikeIsFaithful(fields[k], attachments);
      }
    case _ =>
  }

  // ---------------------------------------------------------------- across the wire

  /** What a JSON round trip does to the numbers of a tree: all become floats; `number` reads those kept as text. */
  function ViaJson(v: Value, number: string -> real): (r: Value) {
    match v
    case Int(n) => Float(n as real)
    case Number(t) => Float(number(t))
    case Arr(items) => Arr(seq(|items|, i requires 0 <= i < |items| => ViaJson(items[i], number)))
    case Obj(fields) => Obj(map k | k in fields :: ViaJson(fields[k], number))
    case _ => v
  }

  lemma PlaceholderViaJson(w: Value, i: nat, number: string -> real)
    requires IsPlaceholderFor(w, i)
    ensures IsPlaceholderFor(ViaJson(w, number), i)
  {
    assert ViaJson(w, number) == Obj(map[PLACEHOLDER := Bool(true), NUM := Float(i as real)]);
  }

  /** Sending the stripped tree as JSON text loses nothing the receiver needs. */
  lemma {:induction false} StrippedViaJson(v: Value, w: Value, buffers: seq<string>, number: string -> real)
    requires Stripped(v, w, buffers)
    ensures Stripped(ViaJson(v, number), ViaJson(w, number), buffers)
  {
    hide IsPlaceholderFor;
    match v
    case Bin(b) =>
      var i :| 0 <= i < |buffers| && buffers[i] == b && IsPlaceholderFor(w, i);
      PlaceholderViaJson(w, i, number);
    case Arr(items) =>
      forall i | 0 <= i < |items| ensures Stripped(ViaJson(items[i], number), ViaJson(w.items[i], number), buffers) {
        StrippedViaJson(items[i], w.items[i], buffers, number);
      }
    case Obj(fields) =>
      forall k | k in fields ensures Stripped(ViaJson(fields[k], number), ViaJson(w.fields[k], number), buffers) {
        StrippedViaJson(fields[k], w.fields[k], buffers, number);
      }
      FieldsViaJson(fields, w.fields, buffers, number);
    case _ =>
  }

  lemma FieldsViaJson(
    fields: map<string, Value>, stripped: map<string, Value>, buffers: seq<string>, number: string -> real)
    requires stripped.Keys == fields.Keys
    requires forall k :: k in fields ==> Stripped(ViaJson(fields[k], number), ViaJson(stripped[k], number), buffers)
    ensures Stripped(ViaJson(Obj(fields), number), ViaJson(Obj(stripped), number), buffers)
  {
    hide IsPlaceholderFor;
  }

  /** The receiver rebuilds the tree that was sent, up to the representation of its numbers, exactly when that tree
      is faithful. */
  lemma WireRoundTrip(v: Value, w: Value, buffers: seq<string>, number: string -> real)
    requires Stripped(v, w, buffers)
    ensures Reconstruct(ViaJson(w, number), buffers) == ViaJson(v, number) <==> Faithful(ViaJson(v, number), |buffers|)
  {
    StrippedViaJson(v, w, buffers, number);
    ReconstructIff(ViaJson(v, number), ViaJson(w, number), buffers);
  }
}
