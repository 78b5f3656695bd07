/** Types shared by the models of the LBaaS service definition. */
module Lbaas {

  datatype Option<+T> = None | Some(value: T)

  type Id = string

  /** `provisioning_status` of a service object. */
  datatype Status = Active | PendingCreate | PendingUpdate | PendingDelete | Error

  /** A device object `/<partition>/<prefix><id>`; the prefix is the same everywhere. */
  datatype Name = Name(partition: string, id: Id)
}
