/** CarService of bibip_car_service.py: two stores, cars and models, each a
    data file of fixed-width slots (cars.txt, models.txt) and an index file
    of JSON lines giving each record's key and zero-based position
    (cars_index.txt, models_index.txt). */
module BibipCarService {
  import opened Wrappers
  import opened Json
  import opened TextFiles
  import opened Slots
  import opened Index
  import opened Models

  /** The two stores, each naming its data file and its index file */
  datatype Store = CarsStore | ModelsStore

  /** The four files under the root directory: a data file as the slots
      written to it, an index file as its text */
  datatype Disk = Disk(cars: seq<string>, carsIndex: string, models: seq<string>, modelsIndex: string) {

    function Data(s: Store): seq<string> {
      if s == CarsStore then cars else models
    }

    function IndexOf(s: Store): string {
      if s == CarsStore then carsIndex else modelsIndex
    }

    function WithData(s: Store, d: seq<string>): (r: Disk)
      ensures r.Data(s) == d && r.IndexOf(s) == IndexOf(s)
      ensures forall t :: t != s ==> r.Data(t) == Data(t) && r.IndexOf(t) == IndexOf(t)
    {
      if s == CarsStore then this.(cars := d) else this.(models := d)
    }

    function WithIndex(s: Store, text: string): (r: Disk)
      ensures r.IndexOf(s) == text && r.Data(s) == Data(s)
      ensures forall t :: t != s ==> r.Data(t) == Data(t) && r.IndexOf(t) == IndexOf(t)
    {
      if s == CarsStore then this.(carsIndex := text) else this.(modelsIndex := text)
    }
  }

  /** The entry add_car writes: {"vin": car.vin, "position": position} */
  function CarEntry(vin: string, position: int): (e: Object)
    ensures HasShape(e, "vin") && DistinctKeys(e)
    ensures Get(e, "vin") == Some(Str(vin)) && Get(e, "position") == Some(Int(position))
  {
    [("vin", Str(vin)), ("position", Int(position))]
  }

  /** The entry add_model writes: {"id": str(model.id), "position": position} */
  function ModelEntry(id: int, position: int): (e: Object)
    ensures HasShape(e, "id") && DistinctKeys(e)
    ensures Get(e, "id") == Some(Str(IntToString(id))) && Get(e, "position") == Some(Int(position))
  {
    [("id", Str(IntToString(id))), ("position", Int(position))]
  }

  /** The entry _add_to_file writes: {key: position} */
  function KeyEntry(key: string, position: int): (e: Object)
    ensures Keys(e) == {key} && DistinctKeys(e)
    ensures Get(e, key) == Some(Int(position))
  {
    var e := [(key, Int(position))];
    assert e[0].0 == key;
    e
  }

  /** A data file and the entries of its index agree: one entry per slot,
      entry k holds position k under `posField`, and every slot has the slot
      shape */
  predicate Agree(data: seq<string>, entries: seq<Object>, posField: string) {
    && |entries| == |data|
    && (forall k :: 0 <= k < |data| ==> Get(entries[k], posField) == Some(Int(k)))
    && (forall k :: 0 <= k < |data| ==> IsSlot(data[k]))
  }

  /** A store is consistent when its index file reads and agrees with its
      data file */
  predicate Consistent(data: seq<string>, index: string, posField: string) {
    ReadIndex(Some(index)).Ok? && Agree(data, ReadIndex(Some(index)).value, posField)
  }

  /** An entry in the fixed format of add_car and add_model: a str under
      `keyField`, then an int under "position" */
  predicate HasShape(e: Object, keyField: string) {
    |e| == 2 && e[0].0 == keyField && e[0].1.Str? && e[1].0 == "position" && e[1].1.Int?
  }

  predicate AllShaped(entries: seq<Object>, keyField: string) {
    forall k :: 0 <= k < |entries| ==> HasShape(entries[k], keyField)
  }

  /** Every entry of an index file has the format of its store */
  predicate WellKeyed(index: string, keyField: string) {
    ReadIndex(Some(index)).Ok? && AllShaped(ReadIndex(Some(index)).value, keyField)
  }

  /** Appending an entry to an index that reads gives an index whose text
      reads back as the old entries followed by the new one */
  lemma AppendEntryReadsBack(index: string, e: Object)
    requires ReadIndex(Some(index)).Ok? && DistinctKeys(e)
    ensures var es := ReadIndex(Some(index)).value;
            ReadIndex(Some(IndexText(es + [e]))) == Ok(es + [e])
  {
    var es := ReadIndex(Some(index)).value;
    ReadWriteIndex(es + [e]);
  }

  /** One more slot and one more entry holding the next position keep a
      data file and its entries in agreement */
  lemma AppendKeepsAgreement(data: seq<string>, entries: seq<Object>, posField: string, record: string, e: Object)
    requires Agree(data, entries, posField)
    requires Get(e, posField) == Some(Int(|data|))
    ensures Agree(data + [Slot(record)], entries + [e], posField)
  {
    var es', data' := entries + [e], data + [Slot(record)];
    assert forall k :: 0 <= k < |data| ==> es'[k] == entries[k] && data'[k] == data[k];
  }

  /** Adding one slot and one entry holding the next position keeps a store
      consistent */
  lemma AppendKeepsConsistent(data: seq<string>, index: string, posField: string, record: string, e: Object)
    requires Consistent(data, index, posField)
    requires DistinctKeys(e) && Get(e, posField) == Some(Int(|data|))
    ensures var es := ReadIndex(Some(index)).value;
            Consistent(data + [Slot(record)], IndexText(es + [e]), posField)
  {
    var es := ReadIndex(Some(index)).value;
    AppendEntryReadsBack(index, e);
    AppendKeepsAgreement(data, es, posField, record, e);
  }

  lemma AppendKeepsShaped(entries: seq<Object>, keyField: string, e: Object)
    requires AllShaped(entries, keyField) && HasShape(e, keyField)
    ensures AllShaped(entries + [e], keyField)
  {
    assert forall k :: 0 <= k < |entries| ==> (entries + [e])[k] == entries[k];
  }

  /** Adding an entry of the store's format keeps the index well keyed */
  lemma AppendKeepsShape(index: string, keyField: string, e: Object)
    requires WellKeyed(index, keyField)
    requires DistinctKeys(e) && HasShape(e, keyField)
    ensures var es := ReadIndex(Some(index)).value;
            WellKeyed(IndexText(es + [e]), keyField)
  {
    var es := ReadIndex(Some(index)).value;
    AppendEntryReadsBack(index, e);
    AppendKeepsShaped(es, keyField, e);
  }

  /** What add_car and add_model leave behind when the index reads: the new
      index text reads back as the old entries and the new one, and a
      consistent, well keyed store stays so */
  lemma AppendKeepsStore(data: seq<string>, index: string, record: string, e: Object, keyField: string)
    requires ReadIndex(Some(index)).Ok?
    requires DistinctKeys(e) && HasShape(e, keyField)
    requires Get(e, "position") == Some(Int(|ReadIndex(Some(index)).value|))
    ensures var es := ReadIndex(Some(index)).value;
            && ReadIndex(Some(IndexText(es + [e]))) == Ok(es + [e])
            && (Consistent(data, index, "position") ==> Consistent(data + [Slot(record)], IndexText(es + [e]), "position"))
            && (WellKeyed(index, keyField) ==> WellKeyed(IndexText(es + [e]), keyField))
  {
    AppendEntryReadsBack(index, e);
    if Consistent(data, index, "position") {
      AppendKeepsConsistent(data, index, "position", record, e);
    }
    if WellKeyed(index, keyField) {
      AppendKeepsShape(index, keyField, e);
    }
  }

  /** The position an index entry holds is where its record sits in the data
      file: when every record fitted in SlotWidth characters, entry k's slot
      is the text at character offset k * (SlotWidth + 1) */
  lemma PositionLocatesSlot(data: seq<string>, entries: seq<Object>, k: nat)
    requires Agree(data, entries, "position")
    requires forall i :: 0 <= i < |data| ==> |data[i]| == SlotWidth + 1
    requires k < |entries|
    ensures Get(entries[k], "position") == Some(Int(k))
    ensures |Concat(data)| == |data| * (SlotWidth + 1)
    ensures Concat(data)[k * (SlotWidth + 1)..(k + 1) * (SlotWidth + 1)] == data[k]
  {
    SlotAtOffset(data, k);
  }

  /** Different model ids give different keys in models_index.txt */
  lemma ModelKeyInjective(a: int, b: int)
    requires IntToString(a) == IntToString(b)
    ensures a == b
  {
    IntRoundTrip(a, "");
    IntRoundTrip(b, "");
    assert IntToString(a) + "" == IntToString(a);
    assert IntToString(b) + "" == IntToString(b);
  }

  class CarService {
    /** json.dumps(car.dict()) and json.dumps(model.dict()) */
    const dumpsCar: Car -> string
    const dumpsModel: Model -> string

    /** cars.txt, models.txt: the slots appended to them */
    var cars: seq<string>
    var models: seq<string>
    /** cars_index.txt, models_index.txt: their text */
    var carsIndex: string
    var modelsIndex: string

    function OnDisk(): Disk
      reads this
    {
      Disk(cars, carsIndex, models, modelsIndex)
    }

    /** `touch(exist_ok=True)` on the four files: a file that exists keeps
        its contents, a missing one is created empty */
    constructor (carsFile: Option<seq<string>>, carsIndexFile: Option<string>,
                 modelsFile: Option<seq<string>>, modelsIndexFile: Option<string>,
                 dumpsCar: Car -> string, dumpsModel: Model -> string)
      ensures OnDisk() == Disk(carsFile.GetOr([]), carsIndexFile.GetOr(""),
                               modelsFile.GetOr([]), modelsIndexFile.GetOr(""))
      ensures this.dumpsCar == dumpsCar && this.dumpsModel == dumpsModel
      ensures carsFile.None? && carsIndexFile.None? ==> Consistent(cars, carsIndex, "position")
      ensures modelsFile.None? && modelsIndexFile.None? ==> Consistent(models, modelsIndex, "position")
    {
      this.dumpsCar := dumpsCar;
      this.dumpsModel := dumpsModel;
      cars := carsFile.GetOr([]);
      carsIndex := carsIndexFile.GetOr("");
      models := modelsFile.GetOr([]);
      modelsIndex := modelsIndexFile.GetOr("");
    }

    /** `open(data_file, "a").write(slot)` */
    method AppendSlot(s: Store, slot: string)
      modifies this
      ensures OnDisk() == old(OnDisk()).WithData(s, old(OnDisk()).Data(s) + [slot])
      ensures Concat(OnDisk().Data(s)) == Concat(old(OnDisk()).Data(s)) + slot
    {
      ConcatAppend(OnDisk().Data(s), slot);
      if s == CarsStore {
        cars := cars + [slot];
      } else {
        models := models + [slot];
      }
    }

    /** `_write_index`: opening the file for writing empties it, then each
        entry is written as one line */
    method WriteIndex(s: Store, entries: seq<Object>)
      modifies this
      ensures OnDisk() == old(OnDisk()).WithIndex(s, IndexText(entries))
    {
      if s == CarsStore {
        carsIndex := "";
      } else {
        modelsIndex := "";
      }
      for i := 0 to |entries|
        invariant cars == old(cars) && models == old(models)
        invariant s == CarsStore ==> carsIndex == IndexText(entries[..i]) && modelsIndex == old(modelsIndex)
        invariant s == ModelsStore ==> modelsIndex == IndexText(entries[..i]) && carsIndex == old(carsIndex)
      {
        var line := Line(entries[i]);
        if s == CarsStore {
          carsIndex := carsIndex + line;
        } else {
          modelsIndex := modelsIndex + line;
        }
        IndexTextPrefix(entries, i);
      }
      assert entries[..|entries|] == entries;
    }

    /** `_add_to_file`: reads the index first, then appends the slot and the
        entry {key: number of entries read}; a bad index changes nothing */
    method AddToFile<D>(dataFile: Store, indexFile: Store, data: D, dumps: D -> string, key: string)
      returns (r: Result<(), Error>)
      modifies this
      ensures match ReadIndex(Some(old(OnDisk()).IndexOf(indexFile)))
              case Err(e) => r == Err(e) && OnDisk() == old(OnDisk())
              case Ok(es) =>
                && r == Ok(())
                && OnDisk() == old(OnDisk()).WithData(dataFile, old(OnDisk()).Data(dataFile) + [Slot(dumps(data))])
                                            .WithIndex(indexFile, IndexText(es + [KeyEntry(key, |es|)]))
                && ReadIndex(Some(OnDisk().IndexOf(indexFile))) == Ok(es + [KeyEntry(key, |es|)])
      ensures dataFile == indexFile && Consistent(old(OnDisk()).Data(dataFile), old(OnDisk()).IndexOf(indexFile), key)
              ==> Consistent(OnDisk().Data(dataFile), OnDisk().IndexOf(indexFile), key)
    {
      var indexData := ReadIndex(Some(OnDisk().IndexOf(indexFile)));
      if indexData.Err? {
        return Err(indexData.error);
      }
      var es := indexData.value;
      var dataStr := dumps(data);
      AppendSlot(dataFile, Slot(dataStr));
      var entry := KeyEntry(key, |es|);
      WriteIndex(indexFile, es + [entry]);
      AppendEntryReadsBack(old(OnDisk()).IndexOf(indexFile), entry);
      if dataFile == indexFile && Consistent(old(OnDisk()).Data(dataFile), old(OnDisk()).IndexOf(indexFile), key) {
        AppendKeepsConsistent(old(OnDisk()).Data(dataFile), old(OnDisk()).IndexOf(indexFile), key, dataStr, entry);
      }
      r := Ok(());
    }

    /** `add_model`: appends the model's slot to models.txt, then reads
        models_index.txt and rewrites it with the entry
        {"id": str(model.id), "position": number of entries read} added; the
        model is returned as given. A bad index raises after the slot has
        been written. The cars files do not change. */
    method AddModel(model: Model) returns (r: Result<Model, Error>)
      modifies this
      ensures models == old(models) + [Slot(dumpsModel(model))]
      ensures Concat(models) == Concat(old(models)) + Slot(dumpsModel(model))
      ensures cars == old(cars) && carsIndex == old(carsIndex)
      ensures match ReadIndex(Some(old(modelsIndex)))
              case Err(e) => r == Err(e) && modelsIndex == old(modelsIndex)
              case Ok(es) =>
                && r == Ok(model)
                && modelsIndex == IndexText(es + [ModelEntry(model.id, |es|)])
                && ReadIndex(Some(modelsIndex)) == Ok(es + [ModelEntry(model.id, |es|)])
      ensures Consistent(old(models), old(modelsIndex), "position") ==> Consistent(models, modelsIndex, "position")
      ensures WellKeyed(old(modelsIndex), "id") ==> WellKeyed(modelsIndex, "id")
    {
      var modelData := dumpsModel(model);
      AppendSlot(ModelsStore, Slot(modelData));
      ConcatAppend(old(models), Slot(modelData));
      var indexData := ReadIndex(Some(modelsIndex));
      if indexData.Err? {
        return Err(indexData.error);
      }
      var es := indexData.value;
      var entry := ModelEntry(model.id, |es|);
      WriteIndex(ModelsStore, es + [entry]);
      AppendKeepsStore(old(models), old(modelsIndex), modelData, entry, "id");
      r := Ok(model);
    }

    /** `add_car`: the same steps on cars.txt and cars_index.txt, with the
        entry {"vin": car.vin, "position": number of entries read}. The models
        files do not change. */
    method AddCar(car: Car) returns (r: Result<Car, Error>)
      modifies this
      ensures cars == old(cars) + [Slot(dumpsCar(car))]
      ensures Concat(cars) == Concat(old(cars)) + Slot(dumpsCar(car))
      ensures models == old(models) && modelsIndex == old(modelsIndex)
      ensures match ReadIndex(Some(old(carsIndex)))
              case Err(e) => r == Err(e) && carsIndex == old(carsIndex)
              case Ok(es) =>
                && r == Ok(car)
                && carsIndex == IndexText(es + [CarEntry(car.vin, |es|)])
                && ReadIndex(Some(carsIndex)) == Ok(es + [CarEntry(car.vin, |es|)])
      ensures Consistent(old(cars), old(carsIndex), "position") ==> Consistent(cars, carsIndex, "position")
      ensures WellKeyed(old(carsIndex), "vin") ==> WellKeyed(carsIndex, "vin")
    {
      var carData := dumpsCar(car);
      AppendSlot(CarsStore, Slot(carData));
      ConcatAppend(old(cars), Slot(carData));
      var indexData := ReadIndex(Some(carsIndex));
      if indexData.Err? {
        return Err(indexData.error);
      }
      var es := indexData.value;
      var entry := CarEntry(car.vin, |es|);
      WriteIndex(CarsStore, es + [entry]);
      AppendKeepsStore(old(cars), old(carsIndex), carData, entry, "vin");
      r := Ok(car);
    }
  }
}
