/** The persisted entities.  A parent is referred to by its id only. */
module Entity {
  import opened Wrappers

  /** `entity.User`; `password` holds the digest. */
  datatype User = User(id: string, username: string, email: string, password: string)

  /** `entity.AccountDevices`: one device row. */
  datatype AccountDevice = AccountDevice(
    id: string, accountId: string, name: string, os: string, macAddress: string, active: bool)

  /** `entity.AccountSettings`: one settings row. */
  datatype AccountSettings = AccountSettings(id: string, accountId: string, language: string)

  /** `entity.Account`: the aggregate as loaded or written, devices in order and
      settings possibly nil. */
  datatype Account = Account(
    id: string, userId: string, devices: seq<AccountDevice>, settings: Option<AccountSettings>)
}
