# Parca configuration helpers, modelled in Dafny

This project models the configuration library of the Parca profiler charm
(`lib/charms/parca/v0/parca_config.py`). The library does three things:

- It builds the command that starts Parca from the charm configuration. The two
  entries it reads are `storage-persist` and `memory-storage-limit`. Its other
  inputs are three paths, which default to `/parca`, `/etc/parca/parca.yaml` and
  `/var/lib/parca`.
- It reads a version string out of the output of `parca --version`.
- It builds the Parca configuration document. The document has a filesystem
  object-storage bucket at the profile path, and the list of scrape jobs.

The files:

- `wrappers.dfy`: module `Wrappers`, an `Option` type. `None` stands for the
  `IndexError` that Python raises.
- `py_strings.dfy`: module `PyStrings`, the Python string operations the library
  uses. These are `str.split(" ")` (empty fields kept), `" ".join`, the slice
  `s[:n]`, the substring test `sub in s` and `f"{i}"` for ints. Each one comes
  with a reference property or an inverse: join undoes split and split undoes
  join, `ParseInt` reads back the decimal rendering, and `Contains` is proved
  equal to "some position starts a copy".
- `parca_config.dfy`: module `ParcaConfig`.
  - The `DEFAULT_*` paths appear as `DefaultBinPath`, `DefaultConfigPath` and
    `DefaultProfilePath`, with the same values.
  - `parca_command_line` is the method `ParcaCommandLine`. Like the source, it
    appends flags to a list and then joins the list. It is proved equal to the
    function `CommandLine`, and the lemmas below are proved about that function.
  - `parse_version` is the function `ParseVersion`.
  - The `ParcaConfig` class becomes a datatype, because its fields are set once
    in `__init__` and never changed. The defaults of `__init__` are defaults of the
    datatype constructor.
  - `_config`/`to_dict` is the function `ToDict`. It returns a small document tree
    (`Str`, `Dict` over a map, `Jobs`), and `Lookup` models Python's chained
    indexing into that tree. `FromDict` reads the configuration back out of the
    document.

Scrape jobs come from a library outside this repository, so the model treats
them as values of a type parameter `J`. `ToDict` passes them through unchanged.

Python's `int` has no fixed width, so `memory-storage-limit * 1048576` uses
Dafny's unbounded `int`. A negative limit is rendered with a leading `-`, as
Python renders it.

Two notes on the source:

- The comment at `parse_version` gives `0.12.1-next+deadbeef` as an example,
  which has eight commit characters. The code keeps six (`[:6]`). The model
  follows the code.
- `bin_path` and the constructor's `profile_path` are converted with `str(...)`,
  and `config_path` and the command's `profile_path` go through f-string
  formatting. All paths are `string`s in the model, where neither conversion
  changes anything.

## Model

| member | source | states |
|---|---|---|
| `PyStrings.Split` | lib/charms/parca/v0/parca_config.py:75 | `s.split(sep)` has one more field than `s` has separators, and no field contains the separator, so empty fields are kept |
| `PyStrings.Join` | lib/charms/parca/v0/parca_config.py:70 | joining no parts gives `""`; otherwise the result starts with the first part |
| `PyStrings.JoinSplit` | lib/charms/parca/v0/parca_config.py:75 | joining the fields of `s.split(sep)` with `sep` gives back `s`, for every string |
| `PyStrings.SplitJoin` | lib/charms/parca/v0/parca_config.py:70 | splitting the join of one or more separator-free parts gives back exactly those parts |
| `PyStrings.Take` | lib/charms/parca/v0/parca_config.py:79 | `s[:n]` is a prefix of `s` of length `min(n, len(s))`; a short string is kept whole and nothing fails |
| `PyStrings.Contains` | lib/charms/parca/v0/parca_config.py:78 | `sub in s` is true exactly when some position of `s` starts a copy of `sub` |
| `PyStrings.NatToString` | lib/charms/parca/v0/parca_config.py:68 | a non-negative int is written as one or more decimal digits with no leading zero |
| `PyStrings.IntToString` | lib/charms/parca/v0/parca_config.py:68 | an int is written in canonical decimal: a `-` exactly when it is negative, then one or more digits with no leading zero |
| `PyStrings.NatToStringValue` | lib/charms/parca/v0/parca_config.py:68 | the digits written for `n` have the decimal value `n` |
| `PyStrings.IntToStringRoundTrip` | lib/charms/parca/v0/parca_config.py:66-68 | parsing the rendering of any int gives back that int |
| `PyStrings.IntToStringHasNoSpace` | lib/charms/parca/v0/parca_config.py:68 | the rendering of an int never contains a space, so the limit token never splits |
| `ParcaConfig.ParcaCommandLine` | lib/charms/parca/v0/parca_config.py:42-70 | building the list by appends in either storage branch and joining it gives the spaced join of the binary, the config-path flag and the storage flags |
| `ParcaConfig.CommandLineStart` | lib/charms/parca/v0/parca_config.py:57 | for any paths, even ones containing spaces, the command starts with `bin_path`, a space, `--config-path=` followed by `config_path`, and a space |
| `ParcaConfig.CommandLineTokens` | lib/charms/parca/v0/parca_config.py:57-70 | when the paths that appear have no spaces, splitting the command on `" "` gives back its token list |
| `ParcaConfig.PersistentCommandLine` | lib/charms/parca/v0/parca_config.py:60-64 | with `storage-persist`, the command splits into exactly these 5 tokens: the binary, the config path, `--storage-in-memory=false`, `--storage-persist`, `--storage-path=<profile_path>` |
| `ParcaConfig.InMemoryCommandLine` | lib/charms/parca/v0/parca_config.py:65-68 | without `storage-persist`, the command splits into 4 tokens: the binary, the config path, `--storage-in-memory=true`, and `--storage-active-memory=` followed by the canonical decimal rendering of `memory-storage-limit * 1048576`, which reads back as that number |
| `ParcaConfig.StorageModeDependence` | lib/charms/parca/v0/parca_config.py:60-68 | with persistence the command does not depend on `memory-storage-limit`; in memory it does not depend on `profile_path` |
| `ParcaConfig.DefaultInMemoryCommandTokens` | lib/charms/parca/v0/parca_config.py:37-68 | with the default paths and a 1024 MiB limit, the tokens are `/parca`, `--config-path=/etc/parca/parca.yaml`, `--storage-in-memory=true` and `--storage-active-memory=1073741824` |
| `ParcaConfig.ParseVersion` | lib/charms/parca/v0/parca_config.py:73-80 | the IndexError cases in both directions: fewer than 3 fields, or a `-next` third field with fewer than 5 fields; otherwise the result starts with the third field and contains no space |
| `ParcaConfig.ReleasedVersion` | lib/charms/parca/v0/parca_config.py:78-80 | with at least 3 fields and no `-next` in the third, the result is exactly the third field |
| `ParcaConfig.DevelopmentVersion` | lib/charms/parca/v0/parca_config.py:78-79 | with at least 5 fields and `-next` in the third, the result is the third field, then `+`, then the first `min(6, len)` characters of the fifth |
| `ParcaConfig.VersionOfWords` | lib/charms/parca/v0/parca_config.py:75-80 | for output made of space-free words joined by single spaces, the result is worked out from the words themselves, with the IndexError case for a development build with fewer than 5 words |
| `ParcaConfig.DevelopmentVersionExample` | lib/charms/parca/v0/parca_config.py:76-79 | the words `parca, version v0.12.1-next (commit: deadbeefcafe)` give `v0.12.1-next+deadbe` |
| `ParcaConfig.ToDict` | lib/charms/parca/v0/parca_config.py:90-101 | the document has exactly the top-level keys `object_storage` and `scrape_configs`; below them it has exactly `bucket`, then `type` and `config`, then `directory`; the type is `FILESYSTEM`, the directory is the profile path, and the scrape configs are the constructor's list unchanged |
| `ParcaConfig.ToDictRoundTrip` | lib/charms/parca/v0/parca_config.py:86-101 | the configuration object is read back from its document, with the same profile path and the same scrape jobs |
| `ParcaConfig.DefaultConfigDocument` | lib/charms/parca/v0/parca_config.py:86-88 | with the constructor's defaults, the bucket directory is `/var/lib/parca` and the scrape-config list is empty |

## Left out

- `ParcaConfig.__str__`: it renders the document with the external `yaml.safe_dump`, whose output format is not modelled. `ToDict` is the structure that gets rendered.
- `src/charm.py`: this is event-handler glue over the charm framework. It sets status strings, hands every action to a `Parca` class that is not part of this model, and calls `open-port` as a subprocess. None of it is modelled.
- The contents of scrape-job descriptors: they come from an external metrics library, so they are the opaque type parameter `J`.
- Missing `storage-persist` or `memory-storage-limit` keys: Python would raise a `KeyError`. `AppConfig` is a record that always has both entries.
- The mutable default argument `scrape_configs=[]` of `ParcaConfig.__init__`: the list would be shared between instances. Values in the model are immutable, so this sharing cannot be expressed. `to_dict` hands out the constructor's list object itself. The model's `ToDict` matches the source only while no caller mutates that list.
- `str(bin_path)`, `str(profile_path)` and f-string formatting of paths that are not strings: the model's paths are strings.
- `LIBID`, `LIBAPI` and `LIBPATCH`: these are packaging metadata and no code reads them.
