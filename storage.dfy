/**
 * The browser's `localStorage` and `sessionStorage`, as two key-value maps. What the site keeps
 * under `csa_user` is a JSON object; the model stores the decoded record, or the raw text of an
 * entry that does not decode.
 */
module BrowserStorage {
  /** A JSON property value as the site uses them: strings (`email`, `name`, `role`) and booleans (`isLoggedIn`). */
  datatype Value = Str(s: string) | Bool(b: bool)

  /** A user record: property name to value. */
  type User = map<string, Value>

  /** A `localStorage` entry: a JSON object written by `JSON.stringify`, or text that `JSON.parse` rejects. */
  datatype Entry = Record(user: User) | Raw(text: string)

  const UserKey := "csa_user"
  const AdminSessionKey := "csaAdminLoggedIn"

  class Store {
    var local: map<string, Entry>
    var session: map<string, string>

    constructor(local0: map<string, Entry>, session0: map<string, string>)
      ensures local == local0 && session == session0
    {
      local := local0;
      session := session0;
    }

    /** `sessionStorage.getItem(key) === 'true'`. */
    predicate SessionFlag(key: string)
      reads this`session
    {
      key in session && session[key] == "true"
    }
  }
}
