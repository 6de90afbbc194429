/** The records the service stores. Their fields are carried as values only:
    the service never looks inside a record except for its key (a car's vin,
    a model's id), and their serialisation is a parameter of the service. */
module Models {

  datatype CarStatus = Available | Reserved | Sold | InRepair

  datatype Date = Date(year: int, month: int, day: int)

  datatype Model = Model(id: int, name: string, brand: string)

  /** `model` is the id of the car's Model; `price` stands for a Decimal */
  datatype Car = Car(vin: string, model: int, price: real, dateStart: Date, status: CarStatus)
}
