# Bot-detection dashboard: pending annotations and profile embed

This project models the two stateful and decision-making pieces of the
Streamlit dashboard `streamlit/bot_detection.py`. An analyst uses the dashboard
to label Twitter accounts of a cluster as bot or human.

- **The pending-annotation buffer.** This is the module-level table `df` with
  the columns `(user_id, cluster_id, label)`. Pressing MARK upserts the selected
  account by its user id:
  - an account not yet in the table gets a new row at the end;
  - for an account already present, only the `label` column of its row is
    overwritten, and the `cluster_id` from the first insert stays.

  The radio text is stored as `2` for `'BOT'` and `1` for any other text.
  Pressing SAVE hands the table to the label store (`label_users`) and then
  empties it in place.
- **The profile pane (`embed_tweet`).** The handle is resolved from the
  user-lookup response (`get_username_by_id`). When there is a handle, the pane
  shows the `html` of the oEmbed answer for
  `https://publish.twitter.com/oembed?url=https://twitter.com/<handle>`.
  Otherwise it shows a fixed error banner.

Files:

- `wrappers.dfy`: the `Option` and `Result` datatypes.
- `annotation_table.dfy` (module `AnnotationTable`): the rows and the label
  encoding as values. It defines MARK as a function `Upsert` on a sequence of
  rows, and a sequence of presses as `Replay`. It proves the key-uniqueness
  invariant, the append/overwrite postconditions and "latest label wins".
- `annotation_session.dfy` (module `AnnotationSession`): the buffer as the
  class `AnnotationBuffer`, whose field `rows` the methods `Mark` and `Save`
  update in place. `Mark` updates the rows in place with a loop and is proved
  equal to `Upsert`. The label store is the class `LabelStore`, which records
  each table handed to it.
- `profile_embed.dfy` (module `ProfileEmbed`): the handle lookup, the oEmbed
  URL and the fallback decision of the profile pane, as pure functions.

SAVE clears the buffer however `label_users` fared, because the code ignores
its outcome. The masked assignment on line 207 relabels every row of the
account, not just the first one. `Mark` models it that way, and
`UpsertOverwrites` shows that this touches exactly one row once ids are
distinct. Python's `if handle:` is false for the empty string as well as for
`None`, so an empty username also yields the error banner.

## Model

| member | source | states |
|---|---|---|
| AnnotationTable.EncodeLabel | streamlit/bot_detection.py:193-207 | The radio text `'BOT'` is encoded as 2 and every other text as 1. The stored label is always 1 or 2. |
| AnnotationTable.RadioOptionsEncodeDistinctly | streamlit/bot_detection.py:193 | The two radio options `'BOT'` and `'HUMAN'` encode to 2 and 1, so they are told apart. |
| AnnotationTable.Find | streamlit/bot_detection.py:202 | Finds a row of the account exactly when the user_id filter on line 202 is non-empty, and that row is in the table. |
| AnnotationTable.Relabel | streamlit/bot_detection.py:207 | The masked assignment keeps the length. It sets the label of every row of the account and leaves every other row unchanged. |
| AnnotationTable.Upsert | streamlit/bot_detection.py:199-207 | MARK on the table as a value. Its own contract: the length grows by one exactly when the account was absent, and the accounts present afterwards are the earlier ones plus the marked one. The rest is stated by the `Upsert*` lemmas below. |
| AnnotationTable.UpsertAppends | streamlit/bot_detection.py:202-204 | MARK of an absent account adds one row `(user_id, cluster_id, label)` at the end. All earlier rows stay unchanged and in order. |
| AnnotationTable.UpsertOverwrites | streamlit/bot_detection.py:205-207 | MARK of a present account keeps length and order. It changes only that row's label and keeps its original cluster_id. Every other row is untouched. |
| AnnotationTable.UpsertKeepsDistinct | streamlit/bot_detection.py:199-207 | Every MARK preserves pairwise-distinct user_ids. |
| AnnotationTable.UpsertKeepsLabelsEncoded | streamlit/bot_detection.py:204-207 | Every MARK keeps every stored label in {1, 2}. |
| AnnotationTable.CountOfDistinct | streamlit/bot_detection.py:202 | With distinct ids, an account has exactly one row if present and none otherwise. |
| AnnotationTable.UpsertExactlyOne | streamlit/bot_detection.py:199-207 | After any MARK the table holds exactly one row of the marked account. |
| AnnotationTable.FindRelabel | streamlit/bot_detection.py:207 | Read by account, the masked assignment changes only the marked account's label. |
| AnnotationTable.FindAppend | streamlit/bot_detection.py:204 | Read by account, appending a row changes nothing for accounts already present. It adds only the new account. |
| AnnotationTable.UpsertFind | streamlit/bot_detection.py:199-207 | Read as a map from account to row, MARK sets the marked account's label. Its cluster_id is the stored one if the account was present, the given one otherwise. No other account changes. |
| AnnotationTable.UpsertTwice | streamlit/bot_detection.py:199-207 | Marking an account twice equals marking it once with the later label, whatever the first label was. |
| AnnotationTable.Replay | streamlit/bot_detection.py:199-207 | A sequence of MARKs applied in order. Its own contract: the table never shrinks, grows by at most one row per press, and holds exactly the earlier accounts plus the marked ones. The rest is stated by the `Replay*` lemmas and `SessionFromEmpty`. |
| AnnotationTable.ReplayFind | streamlit/bot_detection.py:199-207 | After any sequence of MARKs, each marked account holds the label of its latest press. Its cluster_id is the one it had before, or else that of its first press. Unmarked accounts keep their rows. |
| AnnotationTable.ReplayKeepsInvariant | streamlit/bot_detection.py:199-207 | Distinct ids and labels in {1, 2} hold after any sequence of MARKs. |
| AnnotationTable.SessionFromEmpty | streamlit/bot_detection.py:54-207 | Starting from the empty table, any sequence of MARKs leaves ids distinct. Each marked account has exactly one row, with its first cluster_id and its latest label, and unmarked accounts have none. |
| AnnotationTable.BotThenHuman | streamlit/bot_detection.py:199-207 | MARK (42, 7, BOT) then MARK (42, 7, HUMAN) leaves the single row (42, 7, 1). |
| AnnotationSession.LabelStore.LabelUsers | streamlit/bot_detection.py:225 | The label store receives the table handed to it. |
| AnnotationSession.AnnotationBuffer.constructor | streamlit/bot_detection.py:54 | The buffer starts empty, with the invariant established. |
| AnnotationSession.AnnotationBuffer.Contains | streamlit/bot_detection.py:202 | The scan returns true exactly when some row has the given user_id. |
| AnnotationSession.AnnotationBuffer.Mark | streamlit/bot_detection.py:199-207 | The in-place MARK leaves the rows equal to `Upsert` of the old rows. It appends for a new account, relabels every row of a known account, keeps the invariant, and leaves exactly one row of the account. |
| AnnotationSession.AnnotationBuffer.Save | streamlit/bot_detection.py:222-228 | SAVE hands the label store the rows as they were just before clearing. It then leaves the buffer empty whatever the store did. |
| ProfileEmbed.LookupUsername | streamlit/bot_detection.py:43-47 | A response without `data` yields no handle. With `data` and a `username`, the handle is that username. `data` without `username` is exactly the `MissingUsername` key error. |
| ProfileEmbed.OembedQuery | streamlit/bot_detection.py:67-69 | A request is made exactly when the handle is neither None nor empty. Its URL is the oEmbed prefix followed by the profile URL, and the handle can be read back from it. |
| ProfileEmbed.QueriedHandle | streamlit/bot_detection.py:68-69 | The inverse of the URL construction, stated in its own contract: a handle it returns rebuilds the URL exactly. `OembedQuery` proves that it recovers the handle of every URL built. |
| ProfileEmbed.OembedQueryInjective | streamlit/bot_detection.py:68-69 | Two handles lead to the same oEmbed URL exactly when they are equal. |
| ProfileEmbed.EmbedTweet | streamlit/bot_detection.py:64-81 | An account the directory does not know gets the error banner. A key error in the lookup surfaces as an error. |
| ProfileEmbed.EmbedTweetByHandle | streamlit/bot_detection.py:64-79 | With handle `h`, the pane is the `html` the endpoint returns for exactly `"https://publish.twitter.com/oembed?url=https://twitter.com/" + h`, and a key error when there is none. With no handle or an empty one, it is the fixed banner. |
| ProfileEmbed.EmbedTweetQueriesOnce | streamlit/bot_detection.py:72-75 | The pane depends on the endpoint only through its answer to the one queried URL, and not at all without a handle. |
| ProfileEmbed.UnknownAccountGetsBanner | streamlit/bot_detection.py:64-79 | A lookup without `data`, or any `data` object whose `username` is empty, gives the error banner whatever the endpoint returns. |

## Left out

- Streamlit layout, widgets, forms, spinners, `st.session_state` (also cleared by SAVE), `time.sleep` and `st.experimental_rerun` are UI plumbing with no logic to state.
- The HTTP calls to the Twitter user-lookup and oEmbed endpoints and the bearer-token file read are network and file I/O. Their decoded answers are parameters of `ProfileEmbed`.
- The decimal rendering of the user id into the lookup URL (line 40) is part of the network call and is not modelled.
- `generate_tsne_graph` is left out. It is a floating-point t-SNE inside scikit-learn plus an Altair chart specification.
- `@st.cache_data` memoisation of `embed_tweet` (lines 56-57) is not modelled. `embed_tweet` is keyed on the user id alone, but its result depends on two network answers. With the cache, the pane for an id is the one computed at its first successful call, for the life of the process. A lookup reply without `data` therefore pins the error banner for that id. A raised KeyError is not cached, so it is retried on the next call. `EmbedTweet` is pure only because the network answers are its parameters.
- `df` is a module-level object (lines 53-54) shared by every Streamlit session of the process, and each session's script runs on its own thread. Distinct user ids and "the store receives exactly what is cleared" are proved for one session at a time, with MARK and SAVE taken as atomic steps. Two sessions marking the same new id could both pass the check on line 202 and both append on line 204. A row another session appends between lines 225 and 228 would be cleared without being saved.
- AnnotationSession.AnnotationBuffer.Save: `label_users(df)` receives the live table, which line 228 then empties in place. The model hands the store a copy of the rows as a value, so a store that kept the reference would see an empty table, and the model does not capture that.
- `get_unlabeled_clusters`, `get_cluster_embeddings_userids`, `get_user` and `src.graph` are not part of this model. `label_users` is modelled only as a store that records each table it receives.
- AnnotationSession.AnnotationBuffer.Save: an exception raised by `label_users` would skip the clear in Python. The model has no exceptions, so it always clears.
- The display of the pending table (`st.dataframe(df)`, line 214) only reads the field `rows`. It has no member of its own.
