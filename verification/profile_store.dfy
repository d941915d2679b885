/** The profile database, reduced to its logical contract: a table of rows
    keyed by a unique profile name, each row holding the five generation
    fields. The SQL and the database library are not modelled; the table is
    a map from name to row. */
module ProfileStore {
  import opened Basics
  import opened Generation

  /** The `password_settings` table: profile name to stored generation fields.
      Map keys are unique, as the `UNIQUE` name column demands. */
  type Store = map<string, Settings>

  datatype InsertError = DuplicateName(name: string)

  /** `insert_user_profile`: adds a row under the record's profile name (which
      the source unwraps, so it must be present); fails, leaving the table as
      it was, when that name already has a row. The overwrite flag is not
      stored and is not consulted. */
  function InsertUserProfile(store: Store, data: GenerationData): (r: Result<Store, InsertError>)
    requires data.profile.Some?
    ensures r.Failure? <==> data.profile.value in store
    ensures r.Failure? ==> r.error == DuplicateName(data.profile.value)
    ensures r.Success? ==> r.value.Keys == store.Keys + {data.profile.value}
    ensures r.Success? ==> r.value[data.profile.value] == data.settings
    ensures r.Success? ==> forall n :: n in store ==> r.value[n] == store[n]
  {
    var name := data.profile.value;
    if name in store then Failure(DuplicateName(name)) else Success(store[name := data.settings])
  }

  /** `retrieve_profile_settings`: the stored row as a record bound to its
      name, with no overwrite flag; `None` when the name has no row. */
  function RetrieveProfileSettings(store: Store, name: string): (r: Option<GenerationData>)
    ensures r.None? <==> name !in store
    ensures r.Some? ==> r.value.profile == Some(name) && r.value.overwrite == None
    ensures r.Some? ==> r.value.settings == store[name]
  {
    if name in store then Some(GenerationData(store[name], Some(name), None)) else None
  }

  /** `delete_user_profile`: removes the row if there is one. Deleting a name
      with no row is not an error. */
  function DeleteUserProfile(store: Store, name: string): (r: Store)
    ensures name !in r
    ensures forall n :: n in store && n != name ==> n in r && r[n] == store[n]
    ensures r.Keys <= store.Keys
  {
    store - {name}
  }

  /** A record saved under a fresh name is read back equal in every stored
      field, bound to its name, with the transient overwrite flag dropped. */
  lemma InsertThenRetrieve(store: Store, data: GenerationData)
    requires data.profile.Some? && data.profile.value !in store
    ensures InsertUserProfile(store, data).Success?
    ensures RetrieveProfileSettings(InsertUserProfile(store, data).value, data.profile.value)
            == Some(data.(overwrite := None))
  {
  }

  /** Inserting under a taken name fails with the duplicate-name error, so
      the table stays as it was and the name still reads as its original row
      (the resolver-level form is `Resolver.SaveExistingNameKeepsStore`). */
  lemma DuplicateInsertKeepsRow(store: Store, data: GenerationData)
    requires data.profile.Some? && data.profile.value in store
    ensures InsertUserProfile(store, data) == Failure(DuplicateName(data.profile.value))
    ensures RetrieveProfileSettings(store, data.profile.value).value.settings == store[data.profile.value]
  {
  }

  /** Inserting one profile does not change what any other name reads as. */
  lemma InsertKeepsOtherProfiles(store: Store, data: GenerationData, other: string)
    requires data.profile.Some? && InsertUserProfile(store, data).Success?
    requires other != data.profile.value
    ensures RetrieveProfileSettings(InsertUserProfile(store, data).value, other)
            == RetrieveProfileSettings(store, other)
  {
  }

  /** Inserting and then deleting a fresh profile restores the table. */
  lemma InsertThenDelete(store: Store, data: GenerationData)
    requires data.profile.Some? && data.profile.value !in store
    ensures DeleteUserProfile(InsertUserProfile(store, data).value, data.profile.value) == store
  {
    var after := DeleteUserProfile(InsertUserProfile(store, data).value, data.profile.value);
    assert after.Keys == store.Keys;
  }
}
