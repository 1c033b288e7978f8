// Cached Kubernetes objects, reduced to what the exporter reads of them.
module Objects {
  import opened Wrappers
  import opened Resources
  import opened PathEval

  datatype OwnerReference = OwnerReference(apiVersion: string, kind: string, name: string, controller: Option<bool>)

  datatype ObjectMeta = ObjectMeta(namespace: string, name: string, owners: seq<OwnerReference>)

  // `kind` and `gvk` are what `kindOf` and `gvkOf` report; `meta` is absent for
  // an object without an accessor; `content` is the rest of the object.
  datatype Object = Object(kind: string, gvk: GroupVersionKind, meta: Option<ObjectMeta>, content: map<string, Value>)

  datatype ObjectKey = ObjectKey(namespace: string, name: string)

  predicate KeyedBy(o: Object, key: ObjectKey)
  {
    o.meta.Some? && key == ObjectKey(o.meta.value.namespace, o.meta.value.name)
  }

  // An indexer store: objects under their own namespace and name.
  type Cache = map<ObjectKey, Object>

  ghost predicate WellKeyed(cache: Cache)
  {
    forall k | k in cache :: KeyedBy(cache[k], k)
  }
}
