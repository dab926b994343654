# Cluster health check and pre-flight validator, modelled in Dafny

This project models the two decision procedures of a Juju/Ansible deployment
workflow.

- **The cluster-health predicate** (`is_cluster_healthy`). It reads a decoded
  `juju status` document and walks it: the root, then `applications`, then each
  application's `units`, then each unit's `workload-status.current` and
  `juju-status.current`. A unit is ready when its workload is `active` and its
  agent is `idle`. The predicate stops at the first unit that is not ready, and
  is healthy only if it visited at least one unit.
- **The pre-flight validator** (`main` of the validation script). It checks that
  `ansible`, `juju` and `lxd` are installed. It then checks that the juju major
  version is at least 3, and whether a juju controller login exists. It exits
  with 0 or 1.

Modules:

- `Wrappers` (`wrappers.dfy`): `Option`.
- `JsonTree` (`json_tree.dfy`): the decoded JSON value. Objects keep their
  members in document order, which is the order in which a Python dict built
  by `json.loads` iterates them. The module also defines Python truthiness and
  the `dict.get`, `dict.get(k, default)` and `d[k]` lookups.
- `HealthCheck` (`health_check.dfy`):
  - The verdict `Healthy | Unhealthy | Fault`. `Fault` is an AttributeError
    that the source does not catch.
  - A reference definition of the verdict, `Evaluate`. It is a left fold over
    applications and units (`ScanApps`, `ScanApp`, `ScanUnits`, `CheckUnit`)
    that follows the source's order of evaluation.
  - The imperative traversal `IsClusterHealthy`, with its counter and
    fail-fast returns, proved equal to `Evaluate`. The inner loop over one
    application's units is the method `VisitUnits`. It adds to the same
    running counter and hands a stop back to the outer loop, which returns it.
  - Lemmas that state what the verdict means: well-typedness, readiness, the
    "at least one unit" rule, independence from iteration order, skipped
    applications, and which wrong-typed nodes fault.
- `Strings` (`strings.dfy`): `s.split(c)[0]`, `int(s)` on a digit field, and
  `pat in s`.
- `ValidateDeployment` (`validate_deployment.dfy`):
  - The probes as pure functions of a command result `(stdout, stderr, code)`.
  - `main` as the method `RunPreflight`, over an oracle `run` that maps each
    shell command line to its result. `RunPreflight` is proved equal to the
    reference `Preflight`. Lemmas state the gating and the exit-code rule.

Two behaviours of the code are modelled as written:

- The health check catches only `JSONDecodeError` and `KeyError`. A node of the
  wrong type (a list where an object is expected, `"workload-status": null`)
  therefore raises an uncaught AttributeError, modelled as the verdict `Fault`.
  At the process level the interpreter then exits with status 1, as for
  "unhealthy".
- In the validator, `int()` raises ValueError out of `main` when the major
  field of `juju version` is not a number. This is modelled as the outcome
  `Crash`: the login probe does not run and no summary is reached.

Idempotence of the verdict needs no lemma. `Evaluate` is a function, and
`IsClusterHealthy` is proved equal to it on every input.

## Model

| member | source | states |
|---|---|---|
| `JsonTree.Truthy` | playbooks/health_check.py:8 | Python truthiness: the falsy decoded values are exactly `null`, `false`, `0`, `""`, `[]` and `{}` |
| `JsonTree.GetOr` | playbooks/health_check.py:7 | `d.get(key, default)` is the default when the key is absent, and otherwise a value the dict stores under the key |
| `JsonTree.Get` | playbooks/health_check.py:7 | a value `d.get(key)` returns is one stored in the dict under that key |
| `JsonTree.GetAbsent` | playbooks/health_check.py:7 | `d.get(key)` is None iff no member of the dict has the key |
| `JsonTree.Index` | playbooks/health_check.py:16 | `app_data["units"]` is only evaluated after the `get` at line 13 found the key, so no KeyError can occur (the precondition is proved at the call) |
| `HealthCheck.Evaluate` | playbooks/health_check.py:4-28 | the verdict of `is_cluster_healthy` on the decoded document, following the source's order of evaluation; what it means is stated by `HealthyIff`, `WellTypedNeverFaults` and the fault lemmas below |
| `HealthCheck.Current` | playbooks/health_check.py:18-19 | `unit.get(key, {}).get("current")`, with the outer None for the AttributeError on a non-object status entry; its meaning is stated by `CurrentMeaning` |
| `HealthCheck.CheckUnit` | playbooks/health_check.py:18-21 | one unit: both status lookups, then the active/idle test; its meaning is stated by `CheckUnitMeaning` |
| `HealthCheck.IsClusterHealthy` | playbooks/health_check.py:4-28 | the nested traversal with its counter and early returns yields exactly the verdict `Evaluate` assigns to the decoded document |
| `HealthCheck.VisitUnits` | playbooks/health_check.py:16-22 | the unit loop stops iff some visited unit is not ready or is wrong-typed, with the verdict of the first such unit; otherwise it adds every unit of the application to the counter |
| `HealthCheck.ScanUnits` | playbooks/health_check.py:16-17 | while the unit loop runs, the units counted equal the units visited, and a stop is never a healthy verdict |
| `HealthCheck.ScanApp` | playbooks/health_check.py:13-22 | the early return reached while visiting one application is never a healthy verdict |
| `HealthCheck.ScanAppCount` | playbooks/health_check.py:13-16 | an application that does not return early adds exactly its units to the counter, and none when its `units` entry is absent or falsy |
| `HealthCheck.ScanApps` | playbooks/health_check.py:11-22 | an early return from the application loop is never a healthy verdict |
| `HealthCheck.ScanAppsCount` | playbooks/health_check.py:11-17 | while no early return has happened, `total_units_found` equals the number of units of the applications visited so far |
| `HealthCheck.CurrentMeaning` | playbooks/health_check.py:18-19 | `x.get(key, {}).get("current")` faults iff the status entry is present but not an object; otherwise it finds what the path `key.current` holds, or None when a key is missing |
| `HealthCheck.CheckUnitMeaning` | playbooks/health_check.py:18-21 | a unit faults iff it is wrong-typed; it is ready iff it is well-typed, `workload-status.current == "active"` and `juju-status.current == "idle"` |
| `HealthCheck.UnitsStopPersists` | playbooks/health_check.py:21-22 | once the unit loop has returned, no later unit changes the result (fail-fast) |
| `HealthCheck.AppsStopPersists` | playbooks/health_check.py:12-22 | once the traversal has returned, no later application changes the result (fail-fast) |
| `HealthCheck.ScanUnitsMeaning` | playbooks/health_check.py:16-22 | the unit loop runs to the end iff every unit is well-typed and ready, and it never faults on well-typed units |
| `HealthCheck.ScanAppMeaning` | playbooks/health_check.py:12-22 | one application passes iff it is well-typed and all its units are ready, and a well-typed application never faults |
| `HealthCheck.ScanAppsMeaning` | playbooks/health_check.py:12-22 | the whole traversal runs to the end iff every application is well-typed and all units are ready, and it never faults on well-typed applications |
| `HealthCheck.UnitCountPositive` | playbooks/health_check.py:24-25 | the final counter is positive iff some application has at least one unit |
| `HealthCheck.DecodeErrorIsUnhealthy` | playbooks/health_check.py:27-28 | a document that fails to decode is unhealthy, never a fault |
| `HealthCheck.NoApplicationsIsUnhealthy` | playbooks/health_check.py:7-9 | an object root whose `applications` entry is absent or falsy (`{}`, `null`, `[]`) is unhealthy |
| `HealthCheck.HealthyIff` | playbooks/health_check.py:21-25 | healthy iff the document is well-typed, has at least one unit across all applications, and every unit is ready; this holds for every decoded document |
| `HealthCheck.WellTypedNeverFaults` | playbooks/health_check.py:12-19 | on a well-typed document the result is healthy or unhealthy, never a fault |
| `HealthCheck.UnreadyUnitCondemns` | playbooks/health_check.py:21-22 | on a well-typed document, any single unit that is not ready makes the verdict unhealthy, whatever the other units are |
| `HealthCheck.VerdictDependsOnlyOnUnits` | playbooks/health_check.py:12-16 | on well-typed documents the verdict depends only on the set of unit entries, not on the order or grouping of applications and units |
| `HealthCheck.AppOrderIrrelevant` | playbooks/health_check.py:12 | reordering the applications of a well-typed document, wherever its `applications` member stands among the other members, keeps it well-typed and keeps its verdict |
| `HealthCheck.SkippedAppScan` | playbooks/health_check.py:13-14 | an application whose `units` entry is absent or falsy leaves the traversal unchanged, wherever it stands |
| `HealthCheck.AppWithoutUnitsIsSkipped` | playbooks/health_check.py:13-14 | inserting such an application anywhere in the `applications` object of any document, wherever that member stands among the other members, leaves the verdict unchanged; it alone never makes a document unhealthy and never satisfies the "at least one unit" rule |
| `HealthCheck.FaultOnMalformedTop` | playbooks/health_check.py:7-12 | a root that is not an object, or an `applications` entry that is truthy but not an object, is a fault |
| `HealthCheck.FaultOnMalformedApp` | playbooks/health_check.py:13 | in any object document, a non-object application entry that the traversal reaches is a fault, not unhealthy |
| `HealthCheck.FaultOnMalformedUnits` | playbooks/health_check.py:13-16 | in any object document, a reached application whose `units` entry is truthy but not an object (a list, a string) is a fault, since it has no `.values()` |
| `HealthCheck.FaultOnMalformedUnit` | playbooks/health_check.py:16-19 | in any object document, a reached unit that is not an object, or whose status entry is present but not an object, is a fault, not unhealthy |
| `HealthCheck.OrderMattersOnMalformedInput` | playbooks/health_check.py:12-27 | on a wrong-typed document the order matters: a list-valued application followed by an unready one faults, and the reverse order is unhealthy |
| `Strings.PrefixBefore` | scripts/validate-deployment.py:49 | `s.split(sep)[0]` is a prefix of s without sep, ended by sep or by the end of s |
| `Strings.PrefixBeforeUnique` | scripts/validate-deployment.py:49 | those three properties determine `s.split(sep)[0]` |
| `Strings.ParseNat` | scripts/validate-deployment.py:50 | `int(field)` succeeds iff the field is a non-empty string of digits |
| `Strings.ParseDecimal` | scripts/validate-deployment.py:50 | `int` returns n on the decimal rendering of n |
| `Strings.Contains` | scripts/validate-deployment.py:61 | `pat in s` holds iff pat occurs in s at some index |
| `ValidateDeployment.MajorField` | scripts/validate-deployment.py:49-50 | the major field is the longest prefix of stdout that contains neither `-` nor `.` |
| `ValidateDeployment.LoggedIn` | scripts/validate-deployment.py:61 | login succeeds iff the exit code is 0 and "Not logged in" occurs nowhere in stderr |
| `ValidateDeployment.ToolInstalled` | scripts/validate-deployment.py:33-40 | `check_tool_installed`: the tool is present iff `command -v tool` exits with 0; `ToolProbesAlwaysRun` and `ExitCodeRule` state its effect on `main` |
| `ValidateDeployment.VersionString` | scripts/validate-deployment.py:49 | `stdout.split('-')[0]`: the version without its build suffix |
| `ValidateDeployment.CheckJujuVersion` | scripts/validate-deployment.py:42-56 | `check_juju_version`: failed on a non-zero exit code, a ValueError on a non-numeric major field, otherwise passed iff the major version is at least 3; characterised by `FailedCommandFailsProbes`, `VersionCheckFaults` and `VersionCheckReadsMajor` |
| `ValidateDeployment.FailedCommandFailsProbes` | scripts/validate-deployment.py:33-65 | any result with a non-zero exit code fails the tool, version and login probes; the version output is then not parsed, so nothing faults |
| `ValidateDeployment.TimedOutProbeFails` | scripts/validate-deployment.py:30-31 | the timeout result `("", "Command timed out", 1)` fails the tool, version and login probes, and none of them faults |
| `ValidateDeployment.VersionCheckReadsMajor` | scripts/validate-deployment.py:44-52 | with exit code 0 and stdout made of a number n followed by nothing, `.` or `-`, the major field is n and the probe passes iff n >= 3 |
| `ValidateDeployment.VersionExample` | scripts/validate-deployment.py:49-52 | "3.6.0-ubuntu-amd64" gives the version "3.6.0" and the major field "3", and the probe passes |
| `ValidateDeployment.VersionCheckFaults` | scripts/validate-deployment.py:50 | with exit code 0, the probe faults (ValueError) rather than failing exactly when the major field is not a non-empty string of digits, e.g. empty, `"v3"` or `"3a"` |
| `ValidateDeployment.Preflight` | scripts/validate-deployment.py:67-91 | the reference run of `main`: the tool probes, the gate, the version probe with its crash, the advisory login probe and the exit code; its properties are the lemmas below |
| `ValidateDeployment.RunPreflight` | scripts/validate-deployment.py:67-91 | `main`, with its flag cleared step by step, ends, issues commands and reports login exactly as `Preflight` describes |
| `ValidateDeployment.ToolProbesAlwaysRun` | scripts/validate-deployment.py:73-75 | the three tool probes always run first, in order, with no short-circuit |
| `ValidateDeployment.JujuProbesGated` | scripts/validate-deployment.py:78-80 | the version probe runs iff `juju` is in argv or every tool probe passed; the login probe runs iff the version probe ran and did not fault |
| `ValidateDeployment.ExitCodeRule` | scripts/validate-deployment.py:79-91 | the exit code is 0 iff all tool probes passed and the version probe ran and passed, and 1 otherwise; the run crashes iff the version probe ran and faulted |
| `ValidateDeployment.LoginIsAdvisory` | scripts/validate-deployment.py:80 | the answer of `juju whoami` never changes how the run ends or which commands it issues |
| `ValidateDeployment.AllPresentExample` | scripts/validate-deployment.py:70-87 | all tools present and juju "3.6.0-ubuntu-amd64" give exit code 0 |
| `ValidateDeployment.JujuMissingExample` | scripts/validate-deployment.py:73-78 | juju missing makes the exit code non-zero; without the `juju` argument the juju-specific probes are skipped, and with it the version probe still runs |

## Left out

- `run_command` and `subprocess.run` (shell semantics of `command -v`, output stripping, the 60-second timeout) are process I/O. Each command's stripped result is supplied by the oracle `run`, and a timeout is the constant `TimedOut`.
- `print_status`, the ANSI colour constants and every `print` are presentation only.
- `sys.exit`, reading standard input, and both `__main__` blocks are left out. The model stops at the verdict of `is_cluster_healthy` and at the outcome of `main`. The interpreter's exit status 1 after an uncaught exception is not modelled.
- `json.loads` is a foreign library. Its result is supplied as an `Option<Json>`, where None is a decode error. Errors other than `JSONDecodeError` (for example RecursionError on deeply nested input) are not modelled.
- Decoded objects are assumed to have distinct keys, as `json.loads` delivers them. Lookups take the first member with the key.
- `JsonTree.Json`: JSON numbers are reals. Only their truthiness is used. NaN and Infinity, which Python's decoder also accepts, are not modelled.
- `Strings.ParseNat`: models `int()` only on ASCII digit strings. It does not accept the leading or trailing whitespace, sign, underscores or Unicode digits that Python's `int()` also accepts, so on such fields the model faults where Python may return a number.
- The loop over one application's units is the separate method `HealthCheck.VisitUnits`. It adds into the same running counter, and its stop is returned at once by `IsClusterHealthy`, as the early `return False` does.
