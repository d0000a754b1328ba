/**
 * RequestParamMapMethodArgumentResolver: a Map parameter annotated with
 * @RequestParam and no parameter name receives all request parameters,
 * files or parts, as a single-value or a multi-value map.
 */
module RequestParamMap {
  import opened Common
  import LinkedMaps

  /** The generic value type of the declared map. */
  datatype ValueType = MultipartFileValue | PartValue | OtherValue

  /** A method parameter as the resolver inspects it. */
  datatype Parameter = Parameter(
    requestParamName: Option<string>,   // None: no @RequestParam annotation
    isMap: bool,                        // Map.class.isAssignableFrom(type)
    isMultiValueMap: bool,              // MultiValueMap.class.isAssignableFrom(type)
    valueType: ValueType)

  /** A multipart upload; `fileId` stands for the MultipartFile object. */
  datatype File = File(fileId: nat)

  /** A servlet Part, with the name it was submitted under. */
  datatype Part = Part(partName: string, partId: nat)

  /** The web request as the resolver reads it. */
  datatype Request = Request(
    parameterMap: seq<(string, seq<string>)>,
    multipartRequest: Option<seq<(string, seq<File>)>>,   // resolveMultipartRequest, with its file map
    isMultipart: bool,                                    // a servlet request that is multipart
    parts: seq<Part>)

  datatype Argument =
    | StringMultiMap(strings: seq<(string, seq<string>)>)
    | StringMap(stringMap: seq<(string, string)>)
    | FileMultiMap(files: seq<(string, seq<File>)>)
    | FileMap(fileMap: seq<(string, File)>)
    | PartMultiMap(partLists: seq<(string, seq<Part>)>)
    | PartMap(partMap: seq<(string, Part)>)

  /** supportsParameter: annotated, of a Map type, and without a parameter name. */
  predicate SupportsParameter(p: Parameter) {
    p.requestParamName.Some? && p.isMap && !HasText(p.requestParamName)
  }

  /** `result.add(key, value)` for each value, in order. */
  function AddValues<V>(acc: seq<(string, seq<V>)>, key: string, values: seq<V>): seq<(string, seq<V>)>
    decreases |values|
  {
    if |values| == 0 then acc
    else LinkedMaps.Add(AddValues(acc, key, values[..|values| - 1]), key, values[|values| - 1])
  }

  lemma {:induction false} GetAddValues<V>(acc: seq<(string, seq<V>)>, key: string, values: seq<V>, k: string)
    ensures LinkedMaps.Get(AddValues(acc, key, values), k) ==
            (if k == key && |values| > 0 then Some(LinkedMaps.Get(acc, key).GetOr([]) + values)
             else LinkedMaps.Get(acc, k))
    decreases |values|
  {
    if |values| > 0 {
      var n := |values|;
      var init := values[..n - 1];
      GetAddValues(acc, key, init, k);
      GetAddValues(acc, key, init, key);
      LinkedMaps.GetAdd(AddValues(acc, key, init), key, values[n - 1], k);
      if k == key {
        assert init + [values[n - 1]] == values;
        var before := LinkedMaps.Get(acc, key).GetOr([]);
        assert before + init + [values[n - 1]] == before + values;
      }
    }
  }

  /** The multi-value copy of the parameter map. */
  function MultiValueParameters(pm: seq<(string, seq<string>)>): seq<(string, seq<string>)>
    decreases |pm|
  {
    if |pm| == 0 then []
    else
      var last := pm[|pm| - 1];
      AddValues(MultiValueParameters(pm[..|pm| - 1]), last.0, last.1)
  }

  /**
   * Every parameter keeps all its values, in order, and a parameter with no
   * values does not appear at all.
   */
  lemma {:induction false} GetMultiValueParameters(pm: seq<(string, seq<string>)>, k: string)
    requires LinkedMaps.DistinctKeys(pm)
    ensures LinkedMaps.Get(MultiValueParameters(pm), k) ==
            (if LinkedMaps.Get(pm, k).Some? && |LinkedMaps.Get(pm, k).value| > 0
             then LinkedMaps.Get(pm, k) else None)
    decreases |pm|
  {
    if |pm| > 0 {
      var init, last := pm[..|pm| - 1], pm[|pm| - 1];
      assert pm == init + [last];
      var m := MultiValueParameters(init);
      assert MultiValueParameters(pm) == AddValues(m, last.0, last.1);
      LinkedMaps.DistinctKeysSnoc(init, last);
      LinkedMaps.GetSnoc(init, last, k);
      GetAddValues(m, last.0, last.1, k);
      if k == last.0 {
        GetMultiValueParameters(init, last.0);
        assert LinkedMaps.Get(m, k) == None;
        assert LinkedMaps.Get(pm, k) == Some(last.1);
        assert [] + last.1 == last.1;
      } else {
        GetMultiValueParameters(init, k);
      }
    }
  }

  /** The names of the parameters sent with at least one value, in request order. */
  function KeysWithValues<V>(pm: seq<(string, seq<V>)>): seq<string>
    decreases |pm|
  {
    if |pm| == 0 then []
    else
      var last := pm[|pm| - 1];
      KeysWithValues(pm[..|pm| - 1]) + (if |last.1| > 0 then [last.0] else [])
  }

  /** Adding values appends the key once, at its first non-empty addition. */
  lemma {:induction false} KeysAddValues<V>(acc: seq<(string, seq<V>)>, key: string, values: seq<V>)
    ensures LinkedMaps.Keys(AddValues(acc, key, values)) ==
            (if |values| > 0 && key !in LinkedMaps.Keys(acc) then LinkedMaps.Keys(acc) + [key]
             else LinkedMaps.Keys(acc))
    decreases |values|
  {
    if |values| > 0 {
      KeysAddValues(acc, key, values[..|values| - 1]);
    }
  }

  /** Key order of the multi-value copy: the parameters with values, in request order. */
  lemma {:induction false} MultiValueParametersKeys(pm: seq<(string, seq<string>)>)
    requires LinkedMaps.DistinctKeys(pm)
    ensures LinkedMaps.Keys(MultiValueParameters(pm)) == KeysWithValues(pm)
    decreases |pm|
  {
    if |pm| > 0 {
      var init, last := pm[..|pm| - 1], pm[|pm| - 1];
      assert pm == init + [last];
      LinkedMaps.DistinctKeysSnoc(init, last);
      MultiValueParametersKeys(init);
      GetMultiValueParameters(init, last.0);
      KeysAddValues(MultiValueParameters(init), last.0, last.1);
    }
  }

  /** The single-value copy: the first value of each parameter that has one. */
  function FirstValues(pm: seq<(string, seq<string>)>): seq<(string, string)>
    decreases |pm|
  {
    if |pm| == 0 then []
    else
      var last := pm[|pm| - 1];
      var m := FirstValues(pm[..|pm| - 1]);
      if |last.1| > 0 then LinkedMaps.Put(m, last.0, last.1[0]) else m
  }

  lemma {:induction false} GetFirstValues(pm: seq<(string, seq<string>)>, k: string)
    requires LinkedMaps.DistinctKeys(pm)
    ensures LinkedMaps.Get(FirstValues(pm), k) ==
            (if LinkedMaps.Get(pm, k).Some? && |LinkedMaps.Get(pm, k).value| > 0
             then Some(LinkedMaps.Get(pm, k).value[0]) else None)
    decreases |pm|
  {
    if |pm| > 0 {
      var init, last := pm[..|pm| - 1], pm[|pm| - 1];
      assert pm == init + [last];
      LinkedMaps.DistinctKeysSnoc(init, last);
      LinkedMaps.GetSnoc(init, last, k);
      GetFirstValues(init, k);
      if |last.1| > 0 {
        LinkedMaps.GetPut(FirstValues(init), last.0, last.1[0], k);
      }
    }
  }

  /** Key order of the single-value copy: the parameters with values, in request order. */
  lemma {:induction false} FirstValuesKeys(pm: seq<(string, seq<string>)>)
    requires LinkedMaps.DistinctKeys(pm)
    ensures LinkedMaps.Keys(FirstValues(pm)) == KeysWithValues(pm)
    decreases |pm|
  {
    if |pm| > 0 {
      var init, last := pm[..|pm| - 1], pm[|pm| - 1];
      assert pm == init + [last];
      LinkedMaps.DistinctKeysSnoc(init, last);
      FirstValuesKeys(init);
      GetFirstValues(init, last.0);
    }
  }

  /** The parts submitted under `name`, in order. */
  function PartsNamed(parts: seq<Part>, name: string): (r: seq<Part>)
    ensures forall x :: x in r <==> x in parts && x.partName == name
    decreases |parts|
  {
    if |parts| == 0 then []
    else
      var last := parts[|parts| - 1];
      assert parts == parts[..|parts| - 1] + [last];
      PartsNamed(parts[..|parts| - 1], name) + (if last.partName == name then [last] else [])
  }

  /** The multi-value part map: every part added under its name. */
  function PartLists(parts: seq<Part>): seq<(string, seq<Part>)>
    decreases |parts|
  {
    if |parts| == 0 then []
    else
      var last := parts[|parts| - 1];
      LinkedMaps.Add(PartLists(parts[..|parts| - 1]), last.partName, last)
  }

  lemma {:induction false} GetPartLists(parts: seq<Part>, name: string)
    ensures LinkedMaps.Get(PartLists(parts), name) ==
            (if |PartsNamed(parts, name)| > 0 then Some(PartsNamed(parts, name)) else None)
    decreases |parts|
  {
    if |parts| > 0 {
      var init, last := parts[..|parts| - 1], parts[|parts| - 1];
      assert PartLists(parts) == LinkedMaps.Add(PartLists(init), last.partName, last);
      assert PartsNamed(parts, name) ==
             PartsNamed(init, name) + (if last.partName == name then [last] else []);
      GetPartLists(init, name);
      LinkedMaps.GetAdd(PartLists(init), last.partName, last, name);
      if last.partName == name {
        assert LinkedMaps.Get(PartLists(init), name).GetOr([]) == PartsNamed(init, name);
      } else {
        assert PartsNamed(parts, name) == PartsNamed(init, name);
      }
    }
  }

  /** The single-value part map: the first part under each name wins. */
  function FirstParts(parts: seq<Part>): seq<(string, Part)>
    decreases |parts|
  {
    if |parts| == 0 then []
    else
      var last := parts[|parts| - 1];
      var m := FirstParts(parts[..|parts| - 1]);
      if last.partName !in LinkedMaps.Keys(m) then LinkedMaps.Put(m, last.partName, last) else m
  }

  lemma {:induction false} GetFirstParts(parts: seq<Part>, name: string)
    ensures LinkedMaps.Get(FirstParts(parts), name) ==
            (if |PartsNamed(parts, name)| > 0 then Some(PartsNamed(parts, name)[0]) else None)
    decreases |parts|
  {
    if |parts| > 0 {
      var init, last := parts[..|parts| - 1], parts[|parts| - 1];
      var m := FirstParts(init);
      GetFirstParts(init, name);
      if last.partName !in LinkedMaps.Keys(m) {
        LinkedMaps.GetPut(m, last.partName, last, name);
      }
      if |PartsNamed(init, name)| > 0 {
        assert PartsNamed(parts, name)[0] == PartsNamed(init, name)[0];
      }
    }
  }

  /** MultiValueMap.toSingleValueMap: the first value under each key. */
  function FirstOfEach<V>(m: seq<(string, seq<V>)>): (r: seq<(string, V)>)
    ensures |r| <= |m|
    ensures forall i :: 0 <= i < |r| ==> r[i].0 in LinkedMaps.Keys(m)
  {
    if |m| == 0 then []
    else if |m[0].1| > 0 then [(m[0].0, m[0].1[0])] + FirstOfEach(m[1..])
    else FirstOfEach(m[1..])
  }

  /** A key reads the first value of its list, and is absent when its list is empty or missing. */
  lemma {:induction false} GetFirstOfEach<V>(m: seq<(string, seq<V>)>, k: string)
    requires LinkedMaps.DistinctKeys(m)
    ensures LinkedMaps.Get(FirstOfEach(m), k) ==
            (if LinkedMaps.Get(m, k).Some? && |LinkedMaps.Get(m, k).value| > 0
             then Some(LinkedMaps.Get(m, k).value[0]) else None)
    decreases |m|
  {
    if |m| > 0 {
      var tail := m[1..];
      assert LinkedMaps.Keys(tail) == LinkedMaps.Keys(m)[1..];
      GetFirstOfEach(tail, k);
    }
  }

  /** resolveArgument. */
  function ResolveArgument(p: Parameter, req: Request): (a: Argument)
    ensures p.isMultiValueMap <==> (a.StringMultiMap? || a.FileMultiMap? || a.PartMultiMap?)
    ensures p.valueType == MultipartFileValue <==> (a.FileMultiMap? || a.FileMap?)
    ensures p.valueType == PartValue <==> (a.PartMultiMap? || a.PartMap?)
    ensures p.valueType == MultipartFileValue && req.multipartRequest.None? ==>
              a == FileMultiMap([]) || a == FileMap([])
    ensures p.valueType == PartValue && !req.isMultipart ==> a == PartMultiMap([]) || a == PartMap([])
  {
    if p.isMultiValueMap then
      match p.valueType
      case MultipartFileValue =>
        FileMultiMap(if req.multipartRequest.Some? then req.multipartRequest.value else [])
      case PartValue =>
        PartMultiMap(if req.isMultipart then PartLists(req.parts) else [])
      case OtherValue =>
        StringMultiMap(MultiValueParameters(req.parameterMap))
    else
      match p.valueType
      case MultipartFileValue =>
        FileMap(if req.multipartRequest.Some? then FirstOfEach(req.multipartRequest.value) else [])
      case PartValue =>
        PartMap(if req.isMultipart then FirstParts(req.parts) else [])
      case OtherValue =>
        StringMap(FirstValues(req.parameterMap))
  }

  /**
   * The plain-parameter maps, looked up by parameter name: a multi-value
   * map holds every value, a single-value map the first one, and a
   * parameter sent with no value is absent from both.
   */
  lemma ParameterMapLookup(p: Parameter, req: Request, k: string)
    requires LinkedMaps.DistinctKeys(req.parameterMap)
    requires p.valueType == OtherValue
    ensures var vs := LinkedMaps.Get(req.parameterMap, k);
            var a := ResolveArgument(p, req);
            && (p.isMultiValueMap ==>
                 LinkedMaps.Get(a.strings, k) == (if vs.Some? && |vs.value| > 0 then vs else None))
            && (!p.isMultiValueMap ==>
                 LinkedMaps.Get(a.stringMap, k) == (if vs.Some? && |vs.value| > 0 then Some(vs.value[0]) else None))
  {
    if p.isMultiValueMap {
      assert ResolveArgument(p, req).strings == MultiValueParameters(req.parameterMap);
      GetMultiValueParameters(req.parameterMap, k);
    } else {
      assert ResolveArgument(p, req).stringMap == FirstValues(req.parameterMap);
      GetFirstValues(req.parameterMap, k);
    }
  }

  /**
   * The part maps of a multipart request, looked up by part name: the
   * multi-value map lists every part of that name in order, the
   * single-value map the first of them.
   */
  lemma PartMapLookup(p: Parameter, req: Request, name: string)
    requires p.valueType == PartValue && req.isMultipart
    ensures var named := PartsNamed(req.parts, name);
            var a := ResolveArgument(p, req);
            && (p.isMultiValueMap ==>
                 LinkedMaps.Get(a.partLists, name) == (if |named| > 0 then Some(named) else None))
            && (!p.isMultiValueMap ==>
                 LinkedMaps.Get(a.partMap, name) == (if |named| > 0 then Some(named[0]) else None))
  {
    if p.isMultiValueMap {
      assert ResolveArgument(p, req).partLists == PartLists(req.parts);
      GetPartLists(req.parts, name);
    } else {
      assert ResolveArgument(p, req).partMap == FirstParts(req.parts);
      GetFirstParts(req.parts, name);
    }
  }

  /**
   * The file maps of a multipart request, looked up by field name: the
   * multi-value map is the request's own file map, the single-value map
   * holds the first file of each field.
   */
  lemma FileMapLookup(p: Parameter, req: Request, k: string)
    requires p.valueType == MultipartFileValue && req.multipartRequest.Some?
    requires LinkedMaps.DistinctKeys(req.multipartRequest.value)
    ensures var files := LinkedMaps.Get(req.multipartRequest.value, k);
            var a := ResolveArgument(p, req);
            && (p.isMultiValueMap ==> LinkedMaps.Get(a.files, k) == files)
            && (!p.isMultiValueMap ==>
                 LinkedMaps.Get(a.fileMap, k) == (if files.Some? && |files.value| > 0 then Some(files.value[0]) else None))
  {
    if !p.isMultiValueMap {
      assert ResolveArgument(p, req).fileMap == FirstOfEach(req.multipartRequest.value);
      GetFirstOfEach(req.multipartRequest.value, k);
    }
  }
}
