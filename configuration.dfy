/**
 * Whether the database client exists. The client is built only when both
 * the endpoint URL and the anonymous key are non-empty (an unset variable
 * reads as the empty string); otherwise the exported client is `null`.
 */
module Configuration {
  import opened Wrappers

  /** The constructed client, as far as this model sees it: where it connects and with which key. */
  datatype Client = Client(url: string, anonKey: string)

  /** `import.meta.env.X || ''`: an unset setting reads as the empty string. */
  function Setting(env: Option<string>): (s: string)
    ensures env.Some? ==> s == env.value
    ensures env.None? ==> s == []
  {
    env.GetOr([])
  }

  /** `supabaseUrl && supabaseAnonKey ? createClient(...) : null`, with strings truthy when non-empty. */
  function ClientFor(url: string, anonKey: string): (c: Option<Client>)
    ensures c.Some? <==> url != [] && anonKey != []
    ensures c.Some? ==> c.value.url == url && c.value.anonKey == anonKey
  {
    if url != [] && anonKey != [] then Some(Client(url, anonKey)) else None
  }

  /** `isSupabaseConfigured()`: `!!(supabaseUrl && supabaseAnonKey && supabase)`. */
  predicate IsConfigured(url: string, anonKey: string)
    ensures IsConfigured(url, anonKey) ==> ClientFor(url, anonKey) == Some(Client(url, anonKey))
  {
    url != [] && anonKey != [] && ClientFor(url, anonKey).Some?
  }

  /**
   * The gate is true exactly when both settings are non-empty, and exactly
   * when the client exists: the test of the client adds nothing.
   */
  lemma {:induction false} ConfiguredIffBothSet(url: string, anonKey: string)
    ensures IsConfigured(url, anonKey) <==> url != [] && anonKey != []
    ensures IsConfigured(url, anonKey) <==> ClientFor(url, anonKey).Some?
  {
  }

  /** An unset URL or key leaves the client `null` and the gate closed. */
  lemma UnsetSettingCloses(urlEnv: Option<string>, keyEnv: Option<string>)
    requires urlEnv.None? || keyEnv.None?
    ensures ClientFor(Setting(urlEnv), Setting(keyEnv)).None?
    ensures !IsConfigured(Setting(urlEnv), Setting(keyEnv))
  {
  }
}
